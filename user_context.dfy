/**
 * The store the controllers share: the users table, the progressions (one
 * object per user, keyed by its user id), the item catalog, the inventory
 * table, and the process-wide best-score record.  Every controller action is
 * one atomic step against it.
 */
module Storage {
  import opened Models
  import opened Progressions

  class UserContext {
    /** The users table, in insertion order. */
    var users: seq<Account>
    /** The key the database hands to the next inserted user. */
    var nextUserId: int
    /** The progressions table, keyed by the owning user's id. */
    var progressions: map<int, Progression>
    /** The item catalog, keyed by item id. */
    var items: map<int, Item>
    /** The inventory table, in insertion order. */
    var inventories: seq<InventoryEntry>
    /** The static best-score pair (not persisted in the database). */
    var globale: ScoreRecord

    ghost predicate Valid()
      reads this, progressions.Values
    {
      && UniqueIds(users)
      && (forall i :: 0 <= i < |users| ==> users[i].id < nextUserId)
      && (forall u :: u in progressions ==> progressions[u].userId == u && progressions[u].multiplier >= 1)
      && (forall k :: k in items ==> items[k].id == k)
      && UniquePairs(inventories)
      && (forall i :: 0 <= i < |inventories| ==> inventories[i].quantity >= 1)
    }

    /** The contents of the progressions table as values. */
    ghost function Ledgers(): map<int, Ledger>
      reads this, progressions.Values
    {
      map u | u in progressions :: progressions[u].State()
    }

    /** An empty database with a fresh best-score record. */
    constructor ()
      ensures Valid()
      ensures users == [] && nextUserId == 1 && progressions == map[] && items == map[]
      ensures inventories == [] && globale == ScoreRecord(0, 0)
    {
      users := [];
      nextUserId := 1;
      progressions := map[];
      items := map[];
      inventories := [];
      globale := ScoreRecord(0, 0);
    }
  }

  /** No two users share an id (the primary key). */
  predicate UniqueIds(users: seq<Account>) {
    forall i, j :: 0 <= i < j < |users| ==> users[i].id != users[j].id
  }

  /** At most one inventory row per (user, item) pair. */
  predicate UniquePairs(inv: seq<InventoryEntry>) {
    forall i, j :: 0 <= i < j < |inv| ==> (inv[i].userId, inv[i].itemId) != (inv[j].userId, inv[j].itemId)
  }

  /** The position of the user with the given id (a primary-key lookup). */
  function IndexOfId(users: seq<Account>, id: int): (r: Option<nat>)
    ensures r.Some? ==> r.value < |users| && users[r.value].id == id
    ensures r.Some? ==> forall i :: 0 <= i < r.value ==> users[i].id != id
    ensures r.None? <==> forall i :: 0 <= i < |users| ==> users[i].id != id
  {
    if |users| == 0 then None
    else if users[0].id == id then Some(0)
    else match IndexOfId(users[1..], id)
      case None => None
      case Some(k) => Some(k + 1)
  }

  /** The position of the FIRST user with the given username. */
  function IndexOfUsername(users: seq<Account>, name: string): (r: Option<nat>)
    ensures r.Some? ==> r.value < |users| && users[r.value].username == name
    ensures r.Some? ==> forall i :: 0 <= i < r.value ==> users[i].username != name
    ensures r.None? <==> forall i :: 0 <= i < |users| ==> users[i].username != name
  {
    if |users| == 0 then None
    else if users[0].username == name then Some(0)
    else match IndexOfUsername(users[1..], name)
      case None => None
      case Some(k) => Some(k + 1)
  }

  /** The position of the FIRST inventory row of the given user and item. */
  function IndexOfEntry(inv: seq<InventoryEntry>, userId: int, itemId: int): (r: Option<nat>)
    ensures r.Some? ==> r.value < |inv| && inv[r.value].userId == userId && inv[r.value].itemId == itemId
    ensures r.Some? ==> forall i :: 0 <= i < r.value ==> !(inv[i].userId == userId && inv[i].itemId == itemId)
    ensures r.None? <==> forall i :: 0 <= i < |inv| ==> !(inv[i].userId == userId && inv[i].itemId == itemId)
  {
    if |inv| == 0 then None
    else if inv[0].userId == userId && inv[0].itemId == itemId then Some(0)
    else match IndexOfEntry(inv[1..], userId, itemId)
      case None => None
      case Some(k) => Some(k + 1)
  }
}
