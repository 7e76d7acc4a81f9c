/**
 * The economy actions: list the catalog, list a user's inventory, reseed the
 * catalog, and buy an item, which debits the price from the buyer's count,
 * adds one unit to the buyer's inventory row for that item and credits the
 * item's click value to the buyer's per-click value.
 */
module InventoryController {
  import opened Models
  import opened Progressions
  import opened Storage

  /** Items: the whole catalog, or NO_ITEMS when it is empty. */
  function GetItems(db: UserContext): (r: Result<map<int, Item>>)
    reads db
    ensures r.Err? <==> db.items == map[]
    ensures r.Err? ==> r == Err(NotFound, NoItems)
    ensures r.Ok? ==> r.value == db.items
  {
    if db.items == map[] then Err(NotFound, NoItems) else Ok(db.items)
  }

  /** The rows of one user, in table order. */
  function EntriesOf(inv: seq<InventoryEntry>, userId: int): (r: seq<InventoryEntry>)
    ensures forall e :: e in r <==> e in inv && e.userId == userId
    ensures |r| <= |inv|
  {
    if inv == [] then []
    else (if inv[0].userId == userId then [inv[0]] else []) + EntriesOf(inv[1..], userId)
  }

  /** Each of the user's rows appears exactly as often as in the table; other rows not at all. */
  lemma {:induction false} EntriesOfMultiplicity(inv: seq<InventoryEntry>, userId: int)
    ensures forall e :: multiset(EntriesOf(inv, userId))[e] == if e.userId == userId then multiset(inv)[e] else 0
  {
    if inv != [] {
      EntriesOfMultiplicity(inv[1..], userId);
      assert inv == [inv[0]] + inv[1..];
    }
  }

  /** Selecting from a table split in two selects from each part and keeps them in order. */
  lemma {:induction false} EntriesOfAppend(a: seq<InventoryEntry>, b: seq<InventoryEntry>, userId: int)
    ensures EntriesOf(a + b, userId) == EntriesOf(a, userId) + EntriesOf(b, userId)
    decreases |a|
  {
    if a == [] {
      assert a + b == b;
    } else {
      assert (a + b)[1..] == a[1..] + b;
      EntriesOfAppend(a[1..], b, userId);
    }
  }

  /** UserInventory: the caller's rows, or INVALID_TOKEN when the caller carries no user id. */
  function GetUserInventory(db: UserContext, userId: Option<int>): (r: Result<seq<InventoryEntry>>)
    reads db
    ensures userId.None? ==> r == Err(Unauthorized, InvalidToken)
    ensures userId.Some? ==> r.Ok? && forall e :: e in r.value <==> e in db.inventories && e.userId == userId.value
    ensures userId.Some? ==> forall e :: multiset(r.value)[e] == if e.userId == userId.value then multiset(db.inventories)[e] else 0
  {
    if userId.None? then Err(Unauthorized, InvalidToken)
    else
      EntriesOfMultiplicity(db.inventories, userId.value);
      Ok(EntriesOf(db.inventories, userId.value))
  }

  /** How many units of the item the user owns: the row's quantity, or 0 without a row. */
  function QuantityOf(inv: seq<InventoryEntry>, userId: int, itemId: int): int {
    match IndexOfEntry(inv, userId, itemId)
    case None => 0
    case Some(k) => inv[k].quantity
  }

  /** The inventory after one more unit of the item: a new row of quantity 1, or the existing row incremented. */
  function Upsert(inv: seq<InventoryEntry>, userId: int, itemId: int): (r: seq<InventoryEntry>)
    ensures |r| == |inv| + (if IndexOfEntry(inv, userId, itemId).None? then 1 else 0)
    ensures forall k :: 0 <= k < |inv| && !(inv[k].userId == userId && inv[k].itemId == itemId) ==> r[k] == inv[k]
  {
    match IndexOfEntry(inv, userId, itemId)
    case None => inv + [InventoryEntry(userId, itemId, 1)]
    case Some(k) => inv[k := inv[k].(quantity := inv[k].quantity + 1)]
  }

  /** The buyer's progression after paying for the item. */
  function Purchased(p: Ledger, item: Item): (q: Ledger)
    ensures p.count - q.count == item.price
    ensures q.totalClickValue - p.totalClickValue == item.clickValue
    ensures q.userId == p.userId && q.multiplier == p.multiplier && q.bestScore == p.bestScore
    ensures p.count >= item.price ==> q.count >= 0
  {
    p.(count := p.count - item.price, totalClickValue := p.totalClickValue + item.clickValue)
  }

  /**
   * Why a purchase fails, checked in the source's order: no user id in the
   * token, no such user, no such item, no progression (a null dereference in
   * the source, so an unhandled exception), not enough clicks.
   */
  function BuyError(users: seq<Account>, items: map<int, Item>, ledgers: map<int, Ledger>,
                    userId: Option<int>, itemId: int): (r: Option<(Status, ErrorCode)>)
    ensures r.None? ==>
      && userId.Some? && IndexOfId(users, userId.value).Some? && itemId in items && userId.value in ledgers
      && ledgers[userId.value].count >= items[itemId].price
    ensures r == Some((Unauthorized, InvalidToken)) <==> userId.None?
    ensures r == Some((BadRequest, UserNotFound)) <==>
      userId.Some? && IndexOfId(users, userId.value).None?
    ensures r == Some((BadRequest, ItemNotFound)) <==>
      userId.Some? && IndexOfId(users, userId.value).Some? && itemId !in items
    ensures r == Some((InternalServerError, Unhandled)) <==>
      userId.Some? && IndexOfId(users, userId.value).Some? && itemId in items && userId.value !in ledgers
    ensures r == Some((BadRequest, NotEnoughMoney)) <==>
      && userId.Some? && IndexOfId(users, userId.value).Some? && itemId in items && userId.value in ledgers
      && ledgers[userId.value].count < items[itemId].price
  {
    if userId.None? then Some((Unauthorized, InvalidToken))
    else if IndexOfId(users, userId.value).None? then Some((BadRequest, UserNotFound))
    else if itemId !in items then Some((BadRequest, ItemNotFound))
    else if userId.value !in ledgers then Some((InternalServerError, Unhandled))
    else if ledgers[userId.value].count < items[itemId].price then Some((BadRequest, NotEnoughMoney))
    else None
  }

  /** Buy/{itemId}: the purchase, answered with the buyer's whole inventory. */
  method BuyItem(db: UserContext, userId: Option<int>, itemId: int) returns (r: Result<seq<InventoryEntry>>)
    requires db.Valid()
    modifies db`inventories, db.progressions.Values
    ensures db.Valid()
    ensures var err := BuyError(db.users, db.items, old(db.Ledgers()), userId, itemId);
      err.Some? ==>
        && r == Err(err.value.0, err.value.1)
        && db.Ledgers() == old(db.Ledgers()) && db.inventories == old(db.inventories)
    ensures BuyError(db.users, db.items, old(db.Ledgers()), userId, itemId).None? ==>
      var uid := userId.value;
      && db.Ledgers() == old(db.Ledgers())[uid := Purchased(old(db.Ledgers())[uid], db.items[itemId])]
      && db.inventories == Upsert(old(db.inventories), uid, itemId)
      && r == Ok(EntriesOf(db.inventories, uid))
  {
    ghost var before := db.Ledgers();
    if userId.None? {
      return Err(Unauthorized, InvalidToken);
    }
    var uid := userId.value;
    if IndexOfId(db.users, uid).None? {
      return Err(BadRequest, UserNotFound);
    }
    if itemId !in db.items {
      return Err(BadRequest, ItemNotFound);
    }
    var item := db.items[itemId];
    if uid !in db.progressions {
      return Err(InternalServerError, Unhandled);
    }
    var prog := db.progressions[uid];
    if prog.count < item.price {
      return Err(BadRequest, NotEnoughMoney);
    }
    assert BuyError(db.users, db.items, before, userId, itemId).None?;
    Pay(db, uid, itemId);
    r := Ok(EntriesOf(db.inventories, uid));
  }

  /** The state change of an accepted purchase: debit, upsert, credit. */
  method Pay(db: UserContext, uid: int, itemId: int)
    requires db.Valid() && uid in db.progressions && itemId in db.items
    requires db.progressions[uid].count >= db.items[itemId].price
    modifies db`inventories, db.progressions.Values
    ensures db.Valid()
    ensures db.Ledgers() == old(db.Ledgers())[uid := Purchased(old(db.Ledgers())[uid], db.items[itemId])]
    ensures db.inventories == Upsert(old(db.inventories), uid, itemId)
  {
    ghost var before := db.Ledgers();
    var item := db.items[itemId];
    var prog := db.progressions[uid];
    ghost var after := Purchased(before[uid], item);
    prog.count := prog.count - item.price;
    UpsertKeepsInventoryValid(db.inventories, uid, itemId);
    db.inventories := Upsert(db.inventories, uid, itemId);
    prog.totalClickValue := prog.totalClickValue + item.clickValue;
    assert prog.State() == after;
    assert forall u :: u in db.progressions && u != uid ==> db.progressions[u] != prog;
    assert db.Ledgers() == before[uid := after];
  }

  /** Upsert keeps one row per (user, item) pair and every quantity positive. */
  lemma UpsertKeepsInventoryValid(inv: seq<InventoryEntry>, userId: int, itemId: int)
    requires UniquePairs(inv) && forall i :: 0 <= i < |inv| ==> inv[i].quantity >= 1
    ensures var r := Upsert(inv, userId, itemId);
      UniquePairs(r) && forall i :: 0 <= i < |r| ==> r[i].quantity >= 1
  {
    var r := Upsert(inv, userId, itemId);
    match IndexOfEntry(inv, userId, itemId)
    case None =>
      assert r == inv + [InventoryEntry(userId, itemId, 1)];
    case Some(k) =>
      assert forall i :: 0 <= i < |r| ==> (r[i].userId, r[i].itemId) == (inv[i].userId, inv[i].itemId);
  }

  /** The first matching row is found. */
  lemma IndexOfEntryFirst(inv: seq<InventoryEntry>, userId: int, itemId: int, k: nat)
    requires k < |inv| && inv[k].userId == userId && inv[k].itemId == itemId
    requires forall j :: 0 <= j < k ==> !(inv[j].userId == userId && inv[j].itemId == itemId)
    ensures IndexOfEntry(inv, userId, itemId) == Some(k)
  {
    assert IndexOfEntry(inv, userId, itemId).Some?;
  }

  /** One purchase adds exactly one unit of the bought item for the buyer and changes no other quantity. */
  lemma UpsertQuantity(inv: seq<InventoryEntry>, userId: int, itemId: int, u: int, i: int)
    requires UniquePairs(inv)
    ensures QuantityOf(Upsert(inv, userId, itemId), u, i)
            == QuantityOf(inv, u, i) + (if u == userId && i == itemId then 1 else 0)
  {
    match IndexOfEntry(inv, userId, itemId)
    case None => UpsertQuantityNewRow(inv, userId, itemId, u, i);
    case Some(k) => UpsertQuantityExistingRow(inv, userId, itemId, k, u, i);
  }

  /** The case of UpsertQuantity where the pair had no row yet. */
  lemma UpsertQuantityNewRow(inv: seq<InventoryEntry>, userId: int, itemId: int, u: int, i: int)
    requires IndexOfEntry(inv, userId, itemId).None?
    ensures QuantityOf(Upsert(inv, userId, itemId), u, i)
            == QuantityOf(inv, u, i) + (if u == userId && i == itemId then 1 else 0)
  {
    var r := Upsert(inv, userId, itemId);
    assert r == inv + [InventoryEntry(userId, itemId, 1)];
    if u == userId && i == itemId {
      IndexOfEntryFirst(r, u, i, |inv|);
    } else {
      match IndexOfEntry(inv, u, i)
      case None =>
        assert IndexOfEntry(r, u, i).None?;
      case Some(k) =>
        IndexOfEntryFirst(r, u, i, k);
    }
  }

  /** The case of UpsertQuantity where the pair's row is at position k. */
  lemma UpsertQuantityExistingRow(inv: seq<InventoryEntry>, userId: int, itemId: int, k: nat, u: int, i: int)
    requires UniquePairs(inv) && IndexOfEntry(inv, userId, itemId) == Some(k)
    ensures QuantityOf(Upsert(inv, userId, itemId), u, i)
            == QuantityOf(inv, u, i) + (if u == userId && i == itemId then 1 else 0)
  {
    var r := Upsert(inv, userId, itemId);
    assert r == inv[k := inv[k].(quantity := inv[k].quantity + 1)];
    assert forall j :: 0 <= j < |r| ==> (r[j].userId, r[j].itemId) == (inv[j].userId, inv[j].itemId);
    if u == userId && i == itemId {
      IndexOfEntryFirst(r, u, i, k);
    } else {
      match IndexOfEntry(inv, u, i)
      case None =>
        assert IndexOfEntry(r, u, i).None?;
      case Some(k') =>
        IndexOfEntryFirst(r, u, i, k');
    }
  }

  /** The stock limit of an item plays no part in whether a purchase succeeds. */
  lemma BuyIgnoresMaxQuantity(users: seq<Account>, items: map<int, Item>, ledgers: map<int, Ledger>,
                              userId: Option<int>, itemId: int, cap: int)
    requires itemId in items
    ensures BuyError(users, items[itemId := items[itemId].(maxQuantity := cap)], ledgers, userId, itemId)
            == BuyError(users, items, ledgers, userId, itemId)
  {
  }

  /** A purchase succeeds exactly when the user and the item exist, a progression exists and it can pay. */
  lemma BuySucceedsIff(users: seq<Account>, items: map<int, Item>, ledgers: map<int, Ledger>,
                       userId: Option<int>, itemId: int)
    ensures BuyError(users, items, ledgers, userId, itemId).None? <==>
      && userId.Some?
      && (exists k :: 0 <= k < |users| && users[k].id == userId.value)
      && itemId in items && userId.value in ledgers
      && ledgers[userId.value].count >= items[itemId].price
  {
    if userId.Some? && IndexOfId(users, userId.value).Some? {
      var k := IndexOfId(users, userId.value).value;
      assert users[k].id == userId.value;
    }
  }

  /** Buying an item with a non-negative price and click value keeps a progression sane. */
  lemma PurchasedKeepsSane(p: Ledger, item: Item)
    requires Sane(p) && p.count >= item.price
    requires item.price >= 0 && item.clickValue >= 0
    ensures Sane(Purchased(p, item))
  {
  }

  // ---------------------------------------------------------------------------
  // Seeding the catalog

  /** The catalog built from a downloaded list of items, keyed by id. */
  function ToCatalog(items: seq<Item>): (r: map<int, Item>)
    ensures forall k :: k in r ==> r[k].id == k
    ensures forall i :: 0 <= i < |items| ==> items[i].id in r
    ensures forall k :: k in r ==> r[k] in items
  {
    if items == [] then map[]
    else
      var rest := ToCatalog(items[1..]);
      assert forall x :: x in items[1..] ==> x in items;
      rest[items[0].id := items[0]]
  }

  predicate DistinctItemIds(items: seq<Item>) {
    forall i, j :: 0 <= i < j < |items| ==> items[i].id != items[j].id
  }

  /** With distinct ids the catalog holds every downloaded item under its own id, unchanged. */
  lemma {:induction false} ToCatalogExact(items: seq<Item>)
    requires DistinctItemIds(items)
    ensures forall i :: 0 <= i < |items| ==> ToCatalog(items)[items[i].id] == items[i]
  {
    if items != [] {
      var rest := items[1..];
      assert DistinctItemIds(rest) by {
        forall i, j | 0 <= i < j < |rest| ensures rest[i].id != rest[j].id {
          assert rest[i] == items[i + 1] && rest[j] == items[j + 1];
        }
      }
      ToCatalogExact(rest);
      forall i | 0 < i < |items| ensures ToCatalog(items)[items[i].id] == items[i] {
        assert items[i] == rest[i - 1];
      }
    }
  }

  /**
   * Seed: deletes every inventory row and every item FIRST, then loads the
   * downloaded list (the download is the parameter: None when the fetch
   * failed).  An empty or failed download, or a list whose ids collide,
   * answers SEED_FAILED after the deletion has already happened.
   */
  method Seed(db: UserContext, downloaded: Option<seq<Item>>) returns (r: Result<bool>)
    requires db.Valid()
    modifies db`inventories, db`items
    ensures db.Valid()
    ensures db.inventories == []
    ensures r.Ok? <==> downloaded.Some? && |downloaded.value| > 0 && DistinctItemIds(downloaded.value)
    ensures r.Ok? ==> r == Ok(true) && db.items == ToCatalog(downloaded.value)
    ensures r.Err? ==> r == Err(BadRequest, SeedFailed) && db.items == map[]
  {
    db.inventories := [];
    db.items := map[];
    if downloaded.None? || |downloaded.value| == 0 || !DistinctItemIds(downloaded.value) {
      return Err(BadRequest, SeedFailed);
    }
    db.items := ToCatalog(downloaded.value);
    r := Ok(true);
  }
}
