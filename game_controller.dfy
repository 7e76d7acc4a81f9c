/**
 * The game actions: create a user's progression once, read it, click, read
 * the reset cost, reset (which also updates the process-wide best-score
 * record) and find the best progression of all.
 */
module GameController {
  import opened Models
  import opened Progressions
  import opened Storage

  /** GET Progression/{userId}: the user's progression, or PROGRESSION_NOT_FOUND. */
  function GetProgression(db: UserContext, userId: int): (r: Result<Ledger>)
    requires db.Valid()
    reads db, db.progressions.Values
    ensures r.Ok? <==> userId in db.progressions
    ensures r.Ok? ==> r.value == db.Ledgers()[userId] && r.value.userId == userId && r.value.multiplier >= 1
    ensures r.Err? ==> r == Err(NotFound, ProgressionNotFound)
  {
    if userId in db.progressions then Ok(db.progressions[userId].State())
    else Err(NotFound, ProgressionNotFound)
  }

  /** Initialize/{userId}: creates the user's progression, at most once. */
  method InitProgression(db: UserContext, userId: int) returns (r: Result<Ledger>)
    requires db.Valid()
    modifies db`progressions
    ensures db.Valid()
    ensures userId in old(db.progressions) ==>
      r == Err(BadRequest, ProgressionExists) && db.progressions == old(db.progressions)
    ensures userId !in old(db.progressions) ==>
      && r == Ok(Fresh(userId))
      && userId in db.progressions && fresh(db.progressions[userId])
      && db.progressions == old(db.progressions)[userId := db.progressions[userId]]
      && db.Ledgers() == old(db.Ledgers())[userId := Fresh(userId)]
  {
    if userId in db.progressions {
      return Err(BadRequest, ProgressionExists);
    }
    var prog := new Progression(userId);
    db.progressions := db.progressions[userId := prog];
    r := Ok(prog.State());
  }

  /** Click/{userId}: one click; answers with the new count and the multiplier. */
  method Click(db: UserContext, userId: int) returns (r: Result<ClickResponse>)
    requires db.Valid()
    modifies db.progressions.Values
    ensures db.Valid()
    ensures userId !in db.progressions ==>
      r == Err(NotFound, NoProgression) && db.Ledgers() == old(db.Ledgers())
    ensures userId in db.progressions ==>
      var after := Clicked(old(db.Ledgers())[userId]);
      && db.Ledgers() == old(db.Ledgers())[userId := after]
      && r == Ok(ClickResponse(after.count, after.multiplier))
  {
    if userId !in db.progressions {
      return Err(NotFound, NoProgression);
    }
    var prog := db.progressions[userId];
    prog.AddClick();
    r := Ok(ClickResponse(prog.count, prog.multiplier));
    assert forall u :: u in db.progressions && u != userId ==> db.progressions[u] != prog;
  }

  /** ResetCost/{userId}: the cost of the user's next reset, without changing anything. */
  function GetResetCost(db: UserContext, userId: int): (r: Result<nat>)
    requires db.Valid()
    reads db, db.progressions.Values
    ensures r.Ok? <==> userId in db.progressions
    ensures r.Ok? ==> r.value == ResetCost(db.Ledgers()[userId].multiplier) && r.value >= BaseCost
    ensures r.Err? ==> r == Err(BadRequest, NoProgression)
  {
    if userId !in db.progressions then Err(BadRequest, NoProgression)
    else
      var prog := db.progressions[userId];
      ResetCostAtLeastBase(prog.multiplier);
      Ok(prog.CalculateResetCost())
  }

  /**
   * The best-score record after a successful reset, as the reset action
   * writes it: when the count before the reset beats the record, the record
   * takes the resetting user and the reset COST, not the count.
   */
  function RecordAfterReset(rec: ScoreRecord, userId: int, count: int, cost: int): (r: ScoreRecord)
    ensures count > rec.bestScore ==> r == ScoreRecord(userId, cost)
    ensures count <= rec.bestScore ==> r == rec
  {
    if count > rec.bestScore then ScoreRecord(userId, cost) else rec
  }

  /** Reset/{userId}: trades the count for one more multiplier level when it is affordable. */
  method Reset(db: UserContext, userId: int) returns (r: Result<Ledger>)
    requires db.Valid()
    modifies db`globale, db.progressions.Values
    ensures db.Valid()
    ensures userId !in db.progressions ==>
      && r == Err(BadRequest, NoProgression)
      && db.Ledgers() == old(db.Ledgers()) && db.globale == old(db.globale)
    ensures userId in db.progressions && !CanReset(old(db.Ledgers())[userId]) ==>
      && r == Err(BadRequest, InsufficientClicks)
      && db.Ledgers() == old(db.Ledgers()) && db.globale == old(db.globale)
    ensures userId in db.progressions && CanReset(old(db.Ledgers())[userId]) ==>
      var before := old(db.Ledgers())[userId];
      && r == Ok(AfterReset(before))
      && db.Ledgers() == old(db.Ledgers())[userId := AfterReset(before)]
      && db.globale == RecordAfterReset(old(db.globale), userId, before.count, ResetCost(before.multiplier))
  {
    if userId !in db.progressions {
      return Err(BadRequest, NoProgression);
    }
    var prog := db.progressions[userId];
    var recost := prog.CalculateResetCost();
    if prog.count < recost {
      return Err(BadRequest, InsufficientClicks);
    }
    if prog.count > db.globale.bestScore {
      db.globale := ScoreRecord(userId, recost);
    }
    prog.count := 0;
    prog.multiplier := prog.multiplier + 1;
    r := Ok(prog.State());
    assert forall u :: u in db.progressions && u != userId ==> db.progressions[u] != prog;
  }

  /**
   * BestScore: a progression whose personal best is at least every other's,
   * or NO_PROGRESSIONS when there is none.  Which of several tied
   * progressions is reported is left open, as the ordering query leaves it.
   */
  method GetBestScore(db: UserContext) returns (r: Result<BestScoreResponse>)
    requires db.Valid()
    ensures r.Err? <==> db.progressions == map[]
    ensures r.Err? ==> r == Err(NotFound, NoProgressions)
    ensures r.Ok? ==>
      && r.value.userId in db.progressions
      && r.value.bestScore == db.progressions[r.value.userId].bestScore
      && forall u :: u in db.progressions ==> db.progressions[u].bestScore <= r.value.bestScore
  {
    var keys := db.progressions.Keys;
    if keys == {} {
      return Err(NotFound, NoProgressions);
    }
    ghost var someKey := ElementOf(keys);
    var best :| best in keys;
    var rest := keys - {best};
    while rest != {}
      invariant rest <= keys && best in keys && best !in rest
      invariant forall u :: u in keys - rest ==> db.progressions[u].bestScore <= db.progressions[best].bestScore
      decreases rest
    {
      ghost var someRest := ElementOf(rest);
      var u :| u in rest;
      if db.progressions[u].bestScore > db.progressions[best].bestScore {
        best := u;
      }
      rest := rest - {u};
    }
    var prog := db.progressions[best];
    r := Ok(BestScoreResponse(prog.userId, prog.bestScore));
  }

  /** A witness that a non-empty set has an element. */
  lemma ElementOf<T>(s: set<T>) returns (x: T)
    requires s != {}
    ensures x in s
  {
    x :| x in s;
  }

  // ---------------------------------------------------------------------------
  // The best-score record

  /**
   * The record as the reset action writes it can go DOWN: a user whose count
   * beats the record by resetting at the first level replaces it with the
   * first-level cost, which may be lower than the old record. The record
   * (7, 225) is one the rule itself writes: user 7 resets at the third level
   * (cost 225) with a count above the record.
   */
  lemma RecordAfterResetCanDecrease()
    ensures var before := Ledger(1, 250, 0, 1, 250);
            var rec := ScoreRecord(7, 225);
            && CanReset(before)
            && RecordAfterReset(rec, 1, before.count, ResetCost(before.multiplier)).bestScore < rec.bestScore
  {
    ResetCostFirstLevels();
  }

  /** The record as evidently intended: the count that beat it is stored. */
  function IntendedRecordAfterReset(rec: ScoreRecord, userId: int, count: int): (r: ScoreRecord)
    ensures r.bestScore == Max(rec.bestScore, count)
    ensures r.userId == (if count > rec.bestScore then userId else rec.userId)
  {
    if count > rec.bestScore then ScoreRecord(userId, count) else rec
  }

  /** The intended record after a run of successful resets, each given as (user, count before the reset). */
  function IntendedRecordAfterResets(rec: ScoreRecord, resets: seq<(int, int)>): ScoreRecord
    decreases |resets|
  {
    if resets == [] then rec
    else IntendedRecordAfterResets(IntendedRecordAfterReset(rec, resets[0].0, resets[0].1), resets[1..])
  }

  /**
   * Under the intended rule the record never decreases, ends at least as high
   * as every count that reset, and is either the starting record or one of
   * those counts held by the user who reached it.
   */
  lemma {:induction false} IntendedRecordIsMaximum(rec: ScoreRecord, resets: seq<(int, int)>)
    ensures var fin := IntendedRecordAfterResets(rec, resets);
      && fin.bestScore >= rec.bestScore
      && (forall i :: 0 <= i < |resets| ==> fin.bestScore >= resets[i].1)
      && (fin == rec || exists i :: 0 <= i < |resets| && fin == ScoreRecord(resets[i].0, resets[i].1))
    decreases |resets|
  {
    if resets != [] {
      var next := IntendedRecordAfterReset(rec, resets[0].0, resets[0].1);
      IntendedRecordIsMaximum(next, resets[1..]);
      var fin := IntendedRecordAfterResets(next, resets[1..]);
      forall i | 0 <= i < |resets| ensures fin.bestScore >= resets[i].1 {
        if i > 0 {
          assert resets[i] == resets[1..][i - 1];
        }
      }
      if fin == next {
        if next != rec {
          assert fin == ScoreRecord(resets[0].0, resets[0].1);
        }
      } else {
        var j :| 0 <= j < |resets[1..]| && fin == ScoreRecord(resets[1..][j].0, resets[1..][j].1);
        assert resets[1..][j] == resets[j + 1];
      }
    }
  }
}
