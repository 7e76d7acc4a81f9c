# FirstTryApi: the progression and economy engine, in Dafny

FirstTryApi is the backend of an idle "clicker" game. Each registered user owns
one progression with four numbers:

- a click counter (`count`);
- a per-click value (`totalClickValue`), raised by buying items;
- a prestige multiplier (`multiplier`);
- a personal best (`bestScore`).

A click adds `totalClickValue * multiplier` to the count. A reset trades the
whole count for one more multiplier level. It costs `floor(100 * 1.5^(m - 1))`
clicks, and that cost grows with every level. Buying an item debits its price
from the count, credits its click value, and upserts one row of the buyer's
inventory. Around this engine sit a small user registry and a credential
validator. The registry handles registration (the first user becomes the
administrator), login, administrator update and delete, and public listings.

The model keeps the source's shape:

- `Progressions.Progression` is a class whose methods update its fields in
  place. Its states are described by the value type `Progressions.Ledger` and
  by specification functions (`Clicked`, `AfterReset`, `ResetCost`).
- `Storage.UserContext` is the store the controllers share. It holds the users
  table, the progressions keyed by user id, the item catalog, the inventory
  table and the process-wide best-score record. The record is a static pair in
  the source (`GlobaleScore`) and an explicit field (`globale`) here.
- Each controller action is a function when it only reads and a method when it
  writes. Each method states its whole answer and its whole new state, and
  preserves the store invariant `UserContext.Valid()`.
- `Economy` replays runs of clicks, resets and purchases on one progression and
  proves facts about whole runs.

Two features of the source are modelled as written:

- A fresh progression starts with a per-click value of 0. A new player therefore
  earns nothing by clicking until they own an item.
  `Economy.FreshProgressionIsStuck` proves that, as long as every item costs
  something, no run of actions ever moves a fresh progression.
- The user entity in the source declares `Pseudo` and `MotdePasse`, but its
  controllers read and write `Username` and `Password`. The model uses the
  controllers' names.

## Model

| member | source | states |
|---|---|---|
| Progressions.Progression.constructor | FirstTryApi/Models/Progression.cs:16-23 | a new progression belongs to the given user and starts at count 0, click value 0, multiplier 1, best 0 |
| Progressions.FreshIsSane | FirstTryApi/Models/Progression.cs:16-23 | the starting progression satisfies the invariant: count, click value and best are non-negative, multiplier is at least 1, best is at least count |
| Progressions.Clicked | FirstTryApi/Models/Progression.cs:25-30 | a click raises the count by exactly click value times multiplier; the new best is the larger of the old best and the new count; owner, click value and multiplier are unchanged |
| Progressions.Progression.AddClick | FirstTryApi/Models/Progression.cs:25-30 | the object's fields after the click are exactly `Clicked` of its fields before |
| Progressions.ClickedKeepsSane | FirstTryApi/Models/Progression.cs:25-30 | a click keeps the invariant and never lowers the count |
| Progressions.ResetCost | FirstTryApi/Models/Progression.cs:32-37 | the cost is the floor of 100 * 1.5^(m - 1), pinned down by inequalities over exact powers of 2 and 3 (also for m below 1) |
| Progressions.Progression.CalculateResetCost | FirstTryApi/Models/Progression.cs:32-37 | the object's next reset costs `ResetCost` of its multiplier, and at least 100 once the multiplier is at least 1 |
| Progressions.ResetCostFirstLevels | FirstTryApi/Models/Progression.cs:32-37 | levels 1 to 5 cost 100, 150, 225, 337 and 506 |
| Progressions.ResetCostAtLeastBase | FirstTryApi/Models/Progression.cs:32-37 | from multiplier 1 on, a reset never costs less than 100 |
| Progressions.ResetCostStrictlyIncreasing | FirstTryApi/Models/Progression.cs:32-37 | each level costs strictly more than the one before |
| Progressions.ResetCostMonotone | FirstTryApi/Models/Progression.cs:32-37 | any higher level costs strictly more than any lower one |
| Progressions.ResetCostLeavesInt32 | FirstTryApi/Models/Progression.cs:35-36 | the exact cost is 1,658,599,848 at multiplier 42, which fits a 32-bit signed integer, and 2,487,899,772 at multiplier 43, which does not |
| Progressions.AfterReset | FirstTryApi/Models/Progression.cs:44-46 | a reset sets the count to 0 and raises the multiplier by one; owner, click value and best are unchanged |
| Progressions.Progression.TryReset | FirstTryApi/Models/Progression.cs:39-47 | answers 1 and performs `AfterReset` exactly when the count reaches the cost; otherwise answers 0 and changes no field |
| Progressions.AfterResetKeepsSane | FirstTryApi/Models/Progression.cs:39-47 | a reset keeps the invariant |
| Progressions.ResetNeedsBaseCost | FirstTryApi/Models/Progression.cs:41-43 | no reset is affordable with fewer than 100 clicks |
| Credentials.MatchesRepeatIff | FirstTryApi/Models/UserPass.cs:9-13 | the matcher of a `^[class]{lo,hi}$` pattern accepts exactly the strings of length lo to hi made only of class characters |
| Credentials.UsernameValid | FirstTryApi/Models/UserPass.cs:8-9 | the username rule as written: required (present and not blank) and, when non-empty, a full match of `^[a-zA-Z0-9]{3,20}$`; `UsernameValidIff` states its meaning |
| Credentials.PasswordValid | FirstTryApi/Models/UserPass.cs:12-13 | the password rule as written: required and, when non-empty, a full match of `^[a-zA-Z0-9&^!@#]{4,20}$`; `PasswordValidIff` states its meaning |
| Credentials.CredentialsValid | FirstTryApi/Models/UserPass.cs:8-13 | a request body passes validation exactly when both rules hold |
| Credentials.UsernameValidIff | FirstTryApi/Models/UserPass.cs:8-9 | a username passes exactly when it is present and has 3 to 20 characters, each an ASCII letter or digit |
| Credentials.PasswordValidIff | FirstTryApi/Models/UserPass.cs:12-13 | a password passes exactly when it is present and has 4 to 20 characters, each an ASCII letter, a digit or one of `& ^ ! @ #` |
| Credentials.MissingOrEmptyRejected | FirstTryApi/Models/UserPass.cs:8-13 | a missing or empty username or password is refused |
| Storage.UserContext.constructor | FirstTryApi/Models/ErrorResponse.cs:7-11 | an empty store satisfies the invariant, and its best-score record starts at (0, 0) |
| Storage.IndexOfId | FirstTryApi/Controllers/UserController.cs:57 | finds the user with the given id, or reports that no user has it |
| Storage.IndexOfUsername | FirstTryApi/Controllers/UserController.cs:68 | finds the first user with the given username, or reports that no user has it |
| Storage.IndexOfEntry | FirstTryApi/Controllers/InventoryController.cs:121-122 | finds the first inventory row of the given user and item, or reports that there is none |
| GameController.GetProgression | FirstTryApi/Controllers/GameController.cs:22-30 | answers the user's progression exactly when one exists, else PROGRESSION_NOT_FOUND (404) |
| GameController.InitProgression | FirstTryApi/Controllers/GameController.cs:32-52 | an existing progression gives PROGRESSION_EXISTS and changes nothing; otherwise exactly one fresh progression is added for that user |
| GameController.Click | FirstTryApi/Controllers/GameController.cs:54-64 | no progression gives NO_PROGRESSION (404); otherwise only that user's progression becomes `Clicked`, and the answer is the new count and multiplier |
| GameController.GetResetCost | FirstTryApi/Controllers/GameController.cs:66-76 | answers the user's reset cost (at least 100) without changing anything, or NO_PROGRESSION (400) |
| GameController.RecordAfterReset | FirstTryApi/Controllers/GameController.cs:88-92 | as written: when the count before the reset beats the record, the record becomes (user, reset cost); otherwise it is kept |
| GameController.Reset | FirstTryApi/Controllers/GameController.cs:78-98 | no progression gives NO_PROGRESSION; a count below the cost gives INSUFFICIENT_CLICKS and changes neither the progression nor the record; otherwise only that progression becomes `AfterReset`, and the record follows `RecordAfterReset` |
| GameController.GetBestScore | FirstTryApi/Controllers/GameController.cs:100-109 | NO_PROGRESSIONS exactly when the store holds none; otherwise a stored progression whose best is at least every other progression's best |
| GameController.RecordAfterResetCanDecrease | FirstTryApi/Controllers/GameController.cs:88-92 | a concrete reset that lowers the record from 225, a value the rule itself writes, to 100 |
| GameController.IntendedRecordAfterReset | FirstTryApi/Controllers/GameController.cs:88-92 | corrected rule: the record becomes the larger of itself and the count, held by the user who reached it |
| GameController.IntendedRecordIsMaximum | FirstTryApi/Controllers/GameController.cs:88-92 | under the corrected rule, after any run of resets the record never went down, is at least every count that reset, and is the starting record or one of those counts with its user |
| InventoryController.GetItems | FirstTryApi/Controllers/InventoryController.cs:77-85 | NO_ITEMS exactly when the catalog is empty; otherwise the whole catalog |
| InventoryController.EntriesOf | FirstTryApi/Controllers/InventoryController.cs:95 | the rows kept are exactly the rows of the given user |
| InventoryController.EntriesOfMultiplicity | FirstTryApi/Controllers/InventoryController.cs:95 | each of the user's rows is kept exactly as often as the table holds it, and no other row is kept |
| InventoryController.EntriesOfAppend | FirstTryApi/Controllers/InventoryController.cs:95 | selecting from a table split in two gives the selection from the first part followed by that from the second, so table order is kept |
| InventoryController.GetUserInventory | FirstTryApi/Controllers/InventoryController.cs:88-97 | no user id in the token gives INVALID_TOKEN (401); otherwise exactly the caller's rows, each as often as the table holds it |
| InventoryController.Upsert | FirstTryApi/Controllers/InventoryController.cs:121-137 | one row is added when the pair had none, otherwise none is; every row of another pair is untouched |
| InventoryController.UpsertKeepsInventoryValid | FirstTryApi/Controllers/InventoryController.cs:121-137 | after the upsert there is still at most one row per (user, item) pair, and every quantity is still positive |
| InventoryController.UpsertQuantityNewRow | FirstTryApi/Controllers/InventoryController.cs:124-133 | when the pair had no row, the appended row gives the buyer one unit and no other quantity changes |
| InventoryController.UpsertQuantityExistingRow | FirstTryApi/Controllers/InventoryController.cs:134-137 | when the pair had a row, its quantity goes up by one and no other quantity changes |
| InventoryController.UpsertQuantity | FirstTryApi/Controllers/InventoryController.cs:121-137 | the buyer's quantity of the bought item goes up by exactly one, and every other (user, item) quantity is unchanged |
| InventoryController.Purchased | FirstTryApi/Controllers/InventoryController.cs:119-139 | the count drops by exactly the price and the click value rises by exactly the item's; owner, multiplier and best are unchanged; an affordable purchase leaves the count non-negative |
| InventoryController.PurchasedKeepsSane | FirstTryApi/Controllers/InventoryController.cs:116-139 | an affordable purchase of an item with non-negative price and click value keeps the invariant |
| InventoryController.BuyError | FirstTryApi/Controllers/InventoryController.cs:103-117 | the refusal, checked in the source's order, each stated both ways: INVALID_TOKEN exactly when the token has no user id; USER_NOT_FOUND exactly when the user is absent; ITEM_NOT_FOUND exactly when the user exists and the item does not; the unhandled 500 exactly when both exist and the user has no progression; NOT_ENOUGH_MONEY exactly when all exist and the count is below the price; no refusal means all exist and the count covers the price |
| InventoryController.BuySucceedsIff | FirstTryApi/Controllers/InventoryController.cs:103-117 | a purchase goes through exactly when the caller has a user id, the user and the item exist, the user has a progression and its count covers the price |
| InventoryController.BuyIgnoresMaxQuantity | FirstTryApi/Controllers/InventoryController.cs:110-117 | an item's stock limit never decides whether a purchase succeeds |
| InventoryController.Pay | FirstTryApi/Controllers/InventoryController.cs:119-139 | an accepted purchase makes only the buyer's progression `Purchased` and upserts the buyer's row; the store invariant is kept |
| InventoryController.BuyItem | FirstTryApi/Controllers/InventoryController.cs:99-148 | each refusal (INVALID_TOKEN, USER_NOT_FOUND, ITEM_NOT_FOUND, a missing progression, NOT_ENOUGH_MONEY, in that order) changes nothing; a purchase makes only the buyer's progression `Purchased`, upserts its row, and answers exactly the buyer's rows |
| InventoryController.ToCatalog | FirstTryApi/Controllers/InventoryController.cs:66 | the catalog is keyed by item id, holds every downloaded id, and holds only downloaded items |
| InventoryController.ToCatalogExact | FirstTryApi/Controllers/InventoryController.cs:66 | with distinct ids, each downloaded item is stored unchanged under its own id |
| InventoryController.Seed | FirstTryApi/Controllers/InventoryController.cs:43-75 | inventories and items are cleared first; a failed, empty or id-colliding download gives SEED_FAILED and leaves the catalog empty; otherwise the catalog is the downloaded list |
| UserController.ToPublic | FirstTryApi/Controllers/UserController.cs:31-39 | copies id, username and role and nothing else |
| UserController.ToPublicHidesPassword | FirstTryApi/Controllers/UserController.cs:31-39 | two users that differ only in their password hash have the same public form |
| UserController.GetById | FirstTryApi/Controllers/UserController.cs:53-62 | USER_NOT_FOUND (404) exactly when no user has the id; otherwise the public form of that user |
| UserController.Login | FirstTryApi/Controllers/UserController.cs:64-78 | invalid credentials are refused with 400; with valid credentials, USER_NOT_FOUND exactly when no user has the name; otherwise the answer is that of the first user with that name: its public form when its hash verifies, else INVALID_PASSWORD (401) |
| UserController.Register | FirstTryApi/Controllers/UserController.cs:82-112 | invalid credentials or a taken username change nothing (400, USERNAME_EXISTS for the latter); otherwise exactly one user is appended with the next id, the hashed password, and the Admin role exactly when no Admin existed; unique usernames stay unique and the number of admins becomes the larger of 1 and the old number |
| UserController.UpdateUser | FirstTryApi/Controllers/UserController.cs:114-126 | USER_NOT_FOUND and no change when the id is absent; otherwise only that user's row is replaced, with the new name, the new hash and the new role |
| UserController.DeleteUser | FirstTryApi/Controllers/UserController.cs:128-138 | USER_NOT_FOUND and no change when the id is absent; otherwise exactly that user is removed, and every other user stays in order |
| UserController.RemoveAtKeepsOthers | FirstTryApi/Controllers/UserController.cs:135 | removing one row keeps exactly the users with another id, and ids stay unique |
| UserController.Where | FirstTryApi/Controllers/UserController.cs:155-164 | keeps exactly the users that satisfy the filter |
| UserController.WhereMultiplicity | FirstTryApi/Controllers/UserController.cs:155-164 | each kept user appears exactly as often as in the table, and no other user appears |
| UserController.WhereAppend | FirstTryApi/Controllers/UserController.cs:155-164 | filtering a table split in two gives the filtered first part followed by the filtered second part, so table order is kept |
| UserController.WhereCount | FirstTryApi/Controllers/UserController.cs:155-164 | the filter keeps exactly as many rows as the table has users satisfying it |
| UserController.Project | FirstTryApi/Controllers/UserController.cs:146 | the public form of every user, position by position |
| UserController.ProjectMembers | FirstTryApi/Controllers/UserController.cs:146 | every listed user appears projected, and every projected entry comes from a listed user |
| UserController.GetAll | FirstTryApi/Controllers/UserController.cs:142-149 | the public form of every user, in table order |
| UserController.GetAllAdmins | FirstTryApi/Controllers/UserController.cs:151-158 | exactly the public forms of the administrators, as many entries as there are administrators |
| UserController.Contains | FirstTryApi/Controllers/UserController.cs:164 | the ordinal substring test the search uses; `ContainsIff` states its meaning |
| UserController.ContainsIff | FirstTryApi/Controllers/UserController.cs:164 | the substring test agrees with "t occurs in s at some position" in both directions |
| UserController.GetByName | FirstTryApi/Controllers/UserController.cs:160-166 | exactly the public forms of the users whose username contains the searched name, as many entries as there are such users |
| UserController.AdminCountZeroIff | FirstTryApi/Controllers/UserController.cs:92 | the number of administrators is zero exactly when no user is an administrator |
| Economy.StepKeepsSane | FirstTryApi/Controllers/GameController.cs:54-98 | one click, reset or purchase keeps the invariant and the owner |
| Economy.ReplayKeepsSane | FirstTryApi/Controllers/InventoryController.cs:116-139 | any run of clicks, resets and purchases of well-priced items keeps the invariant and the owner |
| Economy.ReplayIsMonotone | FirstTryApi/Models/Progression.cs:25-47 | over any run, neither the personal best nor the multiplier goes down |
| Economy.MultiplierCountsResets | FirstTryApi/Models/Progression.cs:44-46 | after any run, the multiplier has grown by exactly the number of accepted resets |
| Economy.FreshProgressionIsStuck | FirstTryApi/Models/Progression.cs:16-23 | while every item costs something, no run of actions changes a fresh progression: clicks add 0, and no reset or item is ever affordable |

## Left out

- Tokens: JWT issuing and validation (`FirstTryApi/Services/JwtService.cs`) are foreign cryptography. Login and Register answer the user's public form, and the token beside it is not modelled.
- Password hashing and verification are left abstract. They are the function parameters `hash` and `verify`. The user argument that the hasher ignores is dropped.
- The caller's identity: claim parsing is modelled only by its outcome. It is an optional user id, absent when the claim is missing or not an integer.
- Routing and authorisation attributes (admin-only and anonymous actions) are not modelled. Each action receives the id it acts on. In the source, three actions bind a parameter named `id` while their route names `{userId}`. That binding mismatch is routing plumbing and is not modelled either.
- Persistence: Entity Framework, SQLite, `async` and `SaveChangesAsync` are not modelled. Each action is one atomic step on an in-memory store. The answers for failed saves (`INITIALIZATION_FAILED`, `REGISTRATION_FAILED`, and a `SEED_FAILED` caused by a failed save) are left out.
- Primary keys the store assigns itself, such as the progression and inventory row ids, are left out. A new user's id is modelled by a counter.
- The HTTP download of Seed is a parameter. A download that fails or throws is `None`, and an id collision on insert is refused. The catalog is cleared before the download in every case.
- InventoryController.Seed: item ids the store assigns itself are not modelled. In the source a downloaded item with id 0 has no key yet, and the database gives it a fresh key on insert, so two such items do not collide and none is stored under 0. The model stores every item under its downloaded id, so it refuses two items with id 0 as a collision and stores a single one under key 0.
- The model-validation answer for Register and Login is represented by the label `ValidationFailed` with status 400. The framework's problem-details body is not modelled.
- A purchase by a user without a progression dereferences null in the source. It is modelled as an unhandled failure with status 500 and no change.
- Concurrency: the source does not serialise actions, and races on the static best-score record are not modelled.
- Progressions.ResetCost: the model computes the exact integer floor of 100 * 1.5^(m - 1). It does not model the double-precision `Math.Pow` or the 32-bit `(int)` cast at FirstTryApi/Models/Progression.cs:36. Up to multiplier 50 the double-precision floor equals the exact one, so the cast is the difference that matters. From multiplier 43 on, the cost is 2,487,899,772 or more and does not fit a 32-bit signed integer (`Progressions.ResetCostLeavesInt32`). A player gets there by resetting at multiplier 42, which costs 1,658,599,848. From that point the source's cast gives a value the runtime leaves unspecified, while the model keeps the exact cost.
- Progressions.Clicked: does not model 32-bit wrap-around of the count, the best score or the click value. The model's integers are unbounded.
- InventoryController.Purchased: does not model 32-bit wrap-around of the count or the click value, and does not assume that catalog prices or click values are non-negative. The invariant lemmas require that instead.
- Credentials.IsWhiteSpace: the white-space set behind the required-field check is the ASCII and Latin-1 white space, not the full Unicode set.
- UserController.UpdateUser: like the source, it does not check that the new username is free. Two users can end up sharing a name, and login then checks only the first one.
- DeleteUser changes only the users table, as in the source: the store declares no relationship between users and progressions or inventory rows (a progression's user id is a plain integer), so a deleted user's progression and rows stay behind.

## Findings

| source | as written | input that shows it | evidently intended | confidence | as-written member | corrected member |
|---|---|---|---|---|---|---|
| FirstTryApi/Controllers/GameController.cs:88-92 | when the count before a reset beats the global best score, the record stores the reset cost, not that count | record (7, 225), as written by user 7 resetting at multiplier 3; user 1 with count 250 at multiplier 1 resets at cost 100, and the record becomes (1, 100), lower than before | the record stores the count that beat it, so it never decreases and is the maximum count reached at a reset | high, not executed | GameController.RecordAfterResetCanDecrease | GameController.IntendedRecordIsMaximum |

`GameController.Reset` keeps the rule as written, so that the action matches
the source line for line. The corrected rule, `GameController.IntendedRecordAfterReset`,
and what is proved about it are stated beside it.
