/**
 * One player's progression over a run of successful or refused actions:
 * clicks, resets and purchases, each applied the way its controller action
 * applies it (a refused reset or purchase leaves the progression unchanged).
 * The lemmas here are about whole runs.
 */
module Economy {
  import opened Models
  import opened Progressions
  import opened InventoryController

  /** An action a player takes on their own progression. */
  datatype Event = Tap | Prestige | Buy(item: Item)

  /** One action: a click always applies; a reset or a purchase only when affordable. */
  function Step(p: Ledger, e: Event): Ledger {
    match e
    case Tap => Clicked(p)
    case Prestige => if CanReset(p) then AfterReset(p) else p
    case Buy(item) => if p.count >= item.price then Purchased(p, item) else p
  }

  /** The progression after the actions, in order. */
  function Replay(p: Ledger, events: seq<Event>): Ledger
    decreases |events|
  {
    if events == [] then p else Replay(Step(p, events[0]), events[1..])
  }

  /** Items whose price and click value are not negative (as every seeded catalog item is meant to be). */
  predicate WellPriced(events: seq<Event>) {
    forall i :: 0 <= i < |events| && events[i].Buy? ==>
      events[i].item.price >= 0 && events[i].item.clickValue >= 0
  }

  /** Every item costs something. */
  predicate AllPriced(events: seq<Event>) {
    forall i :: 0 <= i < |events| && events[i].Buy? ==> events[i].item.price > 0
  }

  lemma StepKeepsSane(p: Ledger, e: Event)
    requires Sane(p)
    requires e.Buy? ==> e.item.price >= 0 && e.item.clickValue >= 0
    ensures Sane(Step(p, e))
    ensures Step(p, e).userId == p.userId
  {
    match e
    case Tap => ClickedKeepsSane(p);
    case Prestige => if CanReset(p) { AfterResetKeepsSane(p); }
    case Buy(item) => if p.count >= item.price { PurchasedKeepsSane(p, item); }
  }

  /** No run of actions breaks the progression invariant or changes the owner. */
  lemma {:induction false} ReplayKeepsSane(p: Ledger, events: seq<Event>)
    requires Sane(p) && WellPriced(events)
    ensures Sane(Replay(p, events)) && Replay(p, events).userId == p.userId
    decreases |events|
  {
    if events != [] {
      StepKeepsSane(p, events[0]);
      assert WellPriced(events[1..]) by {
        forall i | 0 <= i < |events[1..]| && events[1..][i].Buy?
          ensures events[1..][i].item.price >= 0 && events[1..][i].item.clickValue >= 0
        {
          assert events[1..][i] == events[i + 1];
        }
      }
      ReplayKeepsSane(Step(p, events[0]), events[1..]);
    }
  }

  /** Neither the personal best nor the multiplier ever goes down. */
  lemma {:induction false} ReplayIsMonotone(p: Ledger, events: seq<Event>)
    ensures Replay(p, events).bestScore >= p.bestScore
    ensures Replay(p, events).multiplier >= p.multiplier
    decreases |events|
  {
    if events != [] {
      ReplayIsMonotone(Step(p, events[0]), events[1..]);
    }
  }

  /** The multiplier grows by exactly one per accepted reset. */
  function AcceptedResets(p: Ledger, events: seq<Event>): nat
    decreases |events|
  {
    if events == [] then 0
    else (if events[0].Prestige? && CanReset(p) then 1 else 0) + AcceptedResets(Step(p, events[0]), events[1..])
  }

  lemma {:induction false} MultiplierCountsResets(p: Ledger, events: seq<Event>)
    ensures Replay(p, events).multiplier == p.multiplier + AcceptedResets(p, events)
    decreases |events|
  {
    if events != [] {
      MultiplierCountsResets(Step(p, events[0]), events[1..]);
    }
  }

  /**
   * A fresh progression starts with no click value, so as long as every item
   * costs something, no run of actions ever moves it: clicks add nothing, a
   * reset is never affordable and no item is either.
   */
  lemma {:induction false} FreshProgressionIsStuck(userId: int, events: seq<Event>)
    requires AllPriced(events)
    ensures Replay(Fresh(userId), events) == Fresh(userId)
    decreases |events|
  {
    if events != [] {
      var p := Fresh(userId);
      ResetCostAtLeastBase(p.multiplier);
      assert Step(p, events[0]) == p;
      assert AllPriced(events[1..]) by {
        forall i | 0 <= i < |events[1..]| && events[1..][i].Buy? ensures events[1..][i].item.price > 0 {
          assert events[1..][i] == events[i + 1];
        }
      }
      FreshProgressionIsStuck(userId, events[1..]);
    }
  }
}
