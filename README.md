# Docker microservices exercises, modelled in Dafny

This project models the business logic of three Flask applications from the
repository's exercises, with every HTTP route reduced to an operation on in-memory state:

- **The vinyl rental shop** (`desafio5`) has three services:
  - The **records service** keeps a catalogue of records and their copy counters, `0 <= available_copies <= total_copies`.
  - The **rentals service** keeps customers with a rental quota and a ledger of rentals. It creates a rental (id `max + 1`, due date, cost) and returns one (late fee).
  - The **gateway** runs two sagas across both services. Renting means: read the record, read the customer, create the rental, decrease the stock. Returning means: read the rental, record the return, increase the stock. It also offers three read-side joins: record availability, customer profile and recommendations.
- **The survival server** (`desafio4`) has two services:
  - The **characters service** keeps a registry of characters. It looks them up by id, filters them by survival odds, and registers new ones.
  - The **survival service** computes:
    - the rating ladder over days survived;
    - the risk assessment over health, hunger and sanity;
    - the list of recommendations;
    - the per-character statistics loop;
    - the odds histogram of the server overview.
- **The Pokemon battle** (`desafio3/api`) has the damage rule and the automatic battle loop. The loop alternates attacks, clamps hp at 0, and stops when a defender is knocked out.

Files and modules:

| file | module | role |
|---|---|---|
| `common.dfy` | `Common` | Option/Result, `next(...)`-style search, list-comprehension filter, `max(ids) + 1`, `min`, ASCII case mapping |
| `records_service.dfy` | `RecordsService` | records, lookups, filters, decrease/increase, class `Catalog` |
| `rentals_service.dfy` | `RentalsService` | customers, rentals, create/return, counter invariants, class `Ledger` |
| `gateway.dfy` | `Gateway` | the cross-service invariant, both sagas as methods over a `Catalog` and a `Ledger`, the read joins |
| `characters_service.dfy` | `CharactersService` | characters, lookups, odds filter, registration, class `Registry` |
| `survival_service.dfy` | `SurvivalService` | rating, risks, recommendations, the statistics loop, the overview histogram |
| `battle.dfy` | `Battle` | damage, the battle as a recursive specification, class `Fighter`, the loop |

How the services are modelled:

- **Mutable state.** Each service's mutable state is a class: `Catalog.records`, `Ledger.customers`/`Ledger.rentals`, `Registry.characters`, and `Fighter.hp` for the battle.
  - Each mutating method is proved equal to a pure function of the old state.
  - That function is specified, and its properties proved, by separate lemmas.
- **Money and dates.** Money is in integer cents. Dates are day numbers.
- **Clock.** "Today" is a parameter. So is the days-survived computation, `daysSince: string -> int`.
- **Transport failures.** The gateway's transport failures are an oracle: the set `down` of outbound calls that raise `RequestException`. A failed request is taken never to reach its service.

The model follows the code on these points, which a reader might not expect:

- The gateway does **not** check the customer's rental quota before posting the rental. Only the rentals service checks it, and it counts the active rentals in its ledger, not the stored `active_rentals` counter.
- Nobody checks that `rental_days` is positive.
- Neither saga compensates a failed final step: there is no rollback.

## Model

| member | source | states |
|---|---|---|
| Common.FindFirst | desafio5/records-service/app.py:106 | the index found is the first element satisfying the test, and None means no element satisfies it |
| Common.Filter | desafio5/records-service/app.py:93 | the comprehension keeps exactly the elements that pass the test, each taken from the input |
| Common.FilterAppend | desafio5/records-service/app.py:79 | filtering distributes over concatenation, so the comprehension keeps input order |
| Common.NextId | desafio5/rentals-service/app.py:175 | `max(ids) + 1 if ids else 1` exceeds every existing id, is 1 on an empty list, and is one more than an existing id otherwise |
| Common.MinOf | desafio5/gateway/app.py:185 | `min` of a non-empty list is an element of the list and at most every element |
| Common.Lower | desafio5/records-service/app.py:79 | lower-casing keeps the length and maps each character |
| RecordsService.FindRecord | desafio5/records-service/app.py:106 | the position of the first record with the id, or none when no record has it |
| RecordsService.GetRecord | desafio5/records-service/app.py:63-73 | a record is returned exactly when some record has the id (else 404), and it is a catalogue record with that id |
| RecordsService.ByGenre | desafio5/records-service/app.py:76-87 | the result holds exactly the catalogue records whose genre equals the argument ignoring case |
| RecordsService.ByGenreAppend | desafio5/records-service/app.py:79 | the genre filter keeps catalogue order |
| RecordsService.ByGenreIgnoresCase | desafio5/records-service/app.py:79 | the genre filter gives the same answer for an argument and its lower-cased form |
| RecordsService.Available | desafio5/records-service/app.py:90-100 | the result holds exactly the records with `available_copies > 0` |
| RecordsService.DecreasedSpec | desafio5/records-service/app.py:103-123 | unknown id gives 404 and an empty shelf 400, both with no change; the decrease succeeds exactly when the record exists with a copy on the shelf, and then exactly that record's counter drops by one, the new count is answered, and nothing else changes |
| RecordsService.IncreasedSpec | desafio5/records-service/app.py:126-146 | unknown id gives 404 and a full shelf 400, both with no change; the increase succeeds exactly when the record exists with fewer copies on the shelf than its total, and then exactly that record's counter rises by one and nothing else changes |
| RecordsService.MutationsKeepBounds | desafio5/records-service/app.py:111-115 | both mutations keep every counter within `0 ..= total_copies` and change neither ids nor totals |
| RecordsService.DecreaseThenIncrease | desafio5/records-service/app.py:115 | a successful decrease followed by an increase of the same record restores the catalogue |
| RecordsService.Catalog.constructor | desafio5/records-service/app.py:19-23 | the catalogue starts as the given table |
| RecordsService.Catalog.Decrease | desafio5/records-service/app.py:103-123 | the answer and the new catalogue are those of `Decreased` on the old catalogue |
| RecordsService.Catalog.Increase | desafio5/records-service/app.py:126-146 | the answer and the new catalogue are those of `Increased` on the old catalogue |
| RentalsService.FindCustomer | desafio5/rentals-service/app.py:160 | the position of the first customer with the id, or none when no customer has it |
| RentalsService.FindRental | desafio5/rentals-service/app.py:215 | the position of the first rental with the id, or none when no rental has it |
| RentalsService.GetCustomer | desafio5/rentals-service/app.py:74-84 | a customer is returned exactly when some customer has the id (else 404) |
| RentalsService.GetRental | desafio5/rentals-service/app.py:99-109 | a rental is returned exactly when some rental has the id (else 404) |
| RentalsService.ActiveRentals | desafio5/rentals-service/app.py:113-124 | the result holds exactly the rentals with status active |
| RentalsService.RentalsOf | desafio5/rentals-service/app.py:135 | the result holds exactly the rentals of the customer |
| RentalsService.CustomerRentals | desafio5/rentals-service/app.py:127-146 | 404 exactly for an unknown customer; otherwise the customer's rentals in ledger order, their number, and the count of those that are active, which equals the quota check's count |
| RentalsService.ActiveOfHistory | desafio5/rentals-service/app.py:135-136 | the active rentals of a customer's history are exactly the rentals the quota check counts, in the same order |
| RentalsService.LateFeeExample | desafio5/rentals-service/app.py:226-229 | a rental of price 10.00 returned two days late owes 20.00 |
| RentalsService.LateFeeMonotone | desafio5/rentals-service/app.py:226-229 | the late fee is never negative for a non-negative price and grows with the return day |
| RentalsService.CreateSpec | desafio5/rentals-service/app.py:150-208 | a missing field (400, named in check order), an unknown customer (404) or a reached quota (400) change nothing, and creation succeeds exactly when all three checks pass; then one rental is appended, with the largest existing id plus one (1 for an empty ledger), status active, no fee, no return date, due after `rental_days`, cost `price * days`, and the snapshots. Only the owner's counter changes, by +1 |
| RentalsService.ReturnSpec | desafio5/rentals-service/app.py:211-247 | an unknown rental (404) or one already returned (400) changes nothing, and the return succeeds exactly when the rental exists and is active; then only that rental becomes returned today with its late fee, and only the owner's counter changes, by -1 |
| RentalsService.ReturnOnlyForward | desafio5/rentals-service/app.py:219-234 | status moves only from active to returned; returned rentals never change |
| RentalsService.ReturnOnTimeNoFee | desafio5/rentals-service/app.py:226-229 | returning on or before the due date costs no fee |
| RentalsService.CreateThenReturnSameDay | desafio5/rentals-service/app.py:175-247 | a rental created and returned the same day can be returned, is then closed, still refers to the same record, and owes no fee |
| RentalsService.CreateKeepsIdsUnique | desafio5/rentals-service/app.py:175 | unique rental ids stay unique after creation |
| RentalsService.ReturnKeepsIdsUnique | desafio5/rentals-service/app.py:233-234 | unique rental ids stay unique after a return |
| RentalsService.CreateKeepsCustomerIds | desafio5/rentals-service/app.py:198 | creation changes only a counter of one customer, so unique customer ids stay unique |
| RentalsService.ReturnKeepsCustomerIds | desafio5/rentals-service/app.py:238 | a return changes only a counter of one customer, so unique customer ids stay unique |
| RentalsService.CreateKeepsCounters | desafio5/rentals-service/app.py:197-198 | if every stored `active_rentals` counter equals the ledger's count, creation keeps it so |
| RentalsService.ReturnKeepsCounters | desafio5/rentals-service/app.py:233-238 | if every stored `active_rentals` counter equals the ledger's count, a return keeps it so |
| RentalsService.Ledger.constructor | desafio5/rentals-service/app.py:19-28 | the tables start as given |
| RentalsService.Ledger.CreateRental | desafio5/rentals-service/app.py:150-208 | the answer and the new tables are those of `Create` on the old tables |
| RentalsService.Ledger.ReturnRental | desafio5/rentals-service/app.py:211-247 | the answer and the new tables are those of `Return` on the old tables |
| Gateway.CreateAndDecreaseKeepConsistent | desafio5/gateway/app.py:303-320 | a ledger creation together with the decrease of its record keeps both services consistent (unique ids, bounds, matching counters, shelf + loans = total, loans refer to known records) |
| Gateway.ReturnFreesCopy | desafio5/gateway/app.py:355-367 | in a consistent state the record of a rental being returned is below its total, so the increase cannot be refused |
| Gateway.ReturnRebalances | desafio5/gateway/app.py:355-367 | the returned rental stops counting as a loan exactly as its record gains a copy |
| Gateway.ReturnAndIncreaseKeepConsistent | desafio5/gateway/app.py:355-367 | a ledger return together with the increase of its record succeeds and keeps both services consistent |
| Gateway.CreateWithoutDecreaseBreaks | desafio5/gateway/app.py:303-320 | a creation whose decrease never happens leaves the services inconsistent |
| Gateway.ReturnWithoutIncreaseBreaks | desafio5/gateway/app.py:355-367 | a return whose increase never happens leaves the services inconsistent |
| Gateway.RentOrder | desafio5/gateway/app.py:254-335 | calls are a prefix of the plan; a missing field is a 400 before any call, and a complete request makes at least one call |
| Gateway.RentWritesInOrder | desafio5/gateway/app.py:263-320 | with two calls or fewer neither service has changed; with three or fewer the inventory has not changed |
| Gateway.RentDecreasesAfterLedger | desafio5/gateway/app.py:302-320 | a decrease is issued only after the ledger write, for a complete request whose record exists, and the ledger then holds exactly what that write produced |
| Gateway.RentAborts | desafio5/gateway/app.py:267-290 | unknown record is 404, empty shelf is 400 and unknown customer is 404, each with no change and only the calls made so far |
| Gateway.RentPassesRefusalThrough | desafio5/gateway/app.py:309-311 | a non-201 answer of the ledger is passed through with its own status and the inventory is not asked to change |
| Gateway.RentSuccess | desafio5/gateway/app.py:294-329 | a successful rent makes all four calls, appends one rental carrying the record's title and price, and takes one copy of that record off the shelf |
| Gateway.RentThenReturnSameDay | desafio5/gateway/app.py:254-383 | a successful rent followed by a same-day return through the gateway, with every call delivered, succeeds with no late fee and leaves the catalogue exactly as it was before the rental |
| Gateway.RentNoRollback | desafio5/gateway/app.py:316-335 | when the decrease fails after the ledger accepted, the answer is 503, the rental stays and the catalogue keeps its count, so a consistent state becomes inconsistent |
| Gateway.RentShape | desafio5/gateway/app.py:254-335 | rent either changes nothing, or runs the ledger creation and then possibly the decrease |
| Gateway.RentKeepsConsistent | desafio5/gateway/app.py:254-335 | unless the decrease is lost, rent keeps both services consistent |
| Gateway.ReturnOrder | desafio5/gateway/app.py:337-352 | calls go in plan order; unknown rental is 404, already returned is 400, both after one read with no change; the ledger is written before the inventory |
| Gateway.ReturnSuccess | desafio5/gateway/app.py:355-377 | a successful return makes all three calls, records the return, puts one copy back and answers with the ledger's late fee |
| Gateway.ReturnFailsOnlyInTransit | desafio5/gateway/app.py:355-383 | in a consistent state a 503 from return always comes from a failed call, the last one issued |
| Gateway.ReturnNoRollback | desafio5/gateway/app.py:363-383 | when the increase fails after the ledger recorded the return, the answer is 503 and the services, consistent before, are not any more |
| Gateway.ReturnShape | desafio5/gateway/app.py:337-383 | return either changes nothing, or runs the ledger return and then possibly the increase |
| Gateway.ReturnKeepsConsistent | desafio5/gateway/app.py:337-383 | unless the increase is lost, return keeps both services consistent |
| Gateway.Rent | desafio5/gateway/app.py:254-335 | the answer, the calls made and both new states are those of `RentSaga` on the old states |
| Gateway.ReturnRental | desafio5/gateway/app.py:337-383 | the answer, the calls made and both new states are those of `ReturnSaga` on the old states |
| Gateway.ActiveOfRecord | desafio5/gateway/app.py:172-183 | the record's rentals picked from the active list are its active rentals in the ledger, in order |
| Gateway.RecordAvailability | desafio5/gateway/app.py:158-210 | 404 exactly for an unknown record and 503 exactly when a call fails; `is_available` iff a copy is on the shelf; the holders are the record's active rentals' customers in order; a next date only when the shelf is empty and a copy is on loan, and then the earliest due date |
| Gateway.SpentAppend | desafio5/gateway/app.py:232 | the total spent over two lists is the sum of their totals |
| Gateway.CustomerProfile | desafio5/gateway/app.py:212-252 | 404 exactly for an unknown customer and 503 exactly when a call fails; the active rentals, their count, the number of rentals and the total of cost plus fees are those of the customer's own rentals |
| Gateway.ProfileAgreesWithCounter | desafio5/gateway/app.py:241 | while counters match the ledger, the profile's active count equals the stored `active_rentals` |
| Gateway.CreateRaisesSpent | desafio5/gateway/app.py:232 | a new rental raises its customer's total spent by its cost and leaves every other customer's total alone |
| Gateway.Recommend | desafio5/gateway/app.py:385-424 | 404 exactly for an unknown customer and 503 exactly when a call fails; at most five records, the first ones in catalogue order of the customer's genre with a copy on the shelf, and their full count |
| CharactersService.FindCharacter | desafio4/characters-service/app.py:66 | the position of the first character with the id, or none when no character has it |
| CharactersService.GetCharacter | desafio4/characters-service/app.py:62-73 | 404 exactly when no character has the id; otherwise the first character with it |
| CharactersService.NormaliseOdds | desafio4/characters-service/app.py:80-83 | accepted exactly when the capitalised argument is Slim, Grim or None, and then it is that value |
| CharactersService.CapitalizeIgnoresCase | desafio4/characters-service/app.py:80 | capitalising a lower-cased argument gives what capitalising the argument gives, and lower-casing either gives the same word |
| CharactersService.NormaliseOddsExact | desafio4/characters-service/app.py:80-83 | accepted exactly when the argument, ignoring case, is slim, grim or none |
| CharactersService.ByOdds | desafio4/characters-service/app.py:76-93 | 400 exactly for a rejected argument; otherwise exactly the characters whose odds equal the normalised value |
| CharactersService.ByOddsAppend | desafio4/characters-service/app.py:85 | the odds filter keeps registry order |
| CharactersService.AddedSpec | desafio4/characters-service/app.py:96-129 | a missing field is a 400 naming it (in check order) with no change; otherwise exactly one character is appended with the largest existing id plus one (1 for an empty registry), the request's fields, and `joined_at` defaulting to today |
| CharactersService.AddKeepsIdsUnique | desafio4/characters-service/app.py:107 | unique ids stay unique after registration |
| CharactersService.AddThenGet | desafio4/characters-service/app.py:107-121 | a registered character is found by its new id |
| CharactersService.Registry.constructor | desafio4/characters-service/app.py:19-23 | the registry starts as given |
| CharactersService.Registry.AddCharacter | desafio4/characters-service/app.py:96-129 | the answer and the new registry are those of `Added` on the old registry |
| SurvivalService.RatingMonotone | desafio4/survival-service/app.py:30-40 | more days never give a lower rating |
| SurvivalService.RatingLadder | desafio4/survival-service/app.py:30-40 | the lowest rating is exactly below 30 days and "Master of The Constant" exactly from 365 days |
| SurvivalService.RiskMonotone | desafio4/survival-service/app.py:50-78 | a higher stat never gives a more severe risk level |
| SurvivalService.OverallFromStats | desafio4/survival-service/app.py:47-91 | overall risk is Critical iff at least two stats are below 100, Elevated iff exactly one is, Moderate iff none is and two lie in 100 ..< 150, Stable otherwise |
| SurvivalService.NameTipAtMostOne | desafio4/survival-service/app.py:121-131 | at most one character-specific entry applies to any name |
| SurvivalService.TipParts | desafio4/survival-service/app.py:93-139 | each of the five ladders adds at most one entry, of its own category |
| SurvivalService.RecommendationsShape | desafio4/survival-service/app.py:93-139 | the recommendations come grouped in the order hunger, sanity, health, name, overall, at most five in all |
| SurvivalService.RecommendationGaps | desafio4/survival-service/app.py:96-118 | there is no hunger entry exactly for hunger in 100 ..< 150, no sanity entry exactly for sanity in 120 ..< 150, no health entry exactly for health in 100 ..< 150 |
| SurvivalService.RecommendationsByCategory | desafio4/survival-service/app.py:93-139 | read by category, the list is exactly the hunger, sanity, health, name and overall ladders' entries, and has nothing of any other category |
| SurvivalService.OverallTipOnlyAtExtremes | desafio4/survival-service/app.py:133-137 | the good-condition entry appears iff the overall risk is Stable, the survival entry iff it is Critical, and an overall entry only for those two |
| SurvivalService.SurvivalStats | desafio4/survival-service/app.py:182-197 | one entry per character in order, carrying its id, name, title, days survived and the rating of those days |
| SurvivalService.HistogramCounts | desafio4/survival-service/app.py:311-314 | the histogram has a key exactly for the odds some character has, and each count is the number of characters with those odds |
| SurvivalService.BumpTotal | desafio4/survival-service/app.py:314 | one increment raises the sum of the counts by one |
| SurvivalService.HistogramTotal | desafio4/survival-service/app.py:311-314 | the counts of the histogram add up to the number of characters |
| SurvivalService.ServerOverview | desafio4/survival-service/app.py:285-335 | an empty server gives the no-characters answer; otherwise the count of characters, the total days, and the odds histogram are returned |
| Battle.TruncDiv | desafio3/api/app.py:44 | `int(x / y)` is division truncated toward zero: the remainder is smaller than the divisor in magnitude and is zero or has the sign of the numerator; for a non-negative numerator and positive divisor it is ordinary division |
| Battle.Strike | desafio3/api/app.py:44 | the division fails exactly on a zero defence, and the damage is otherwise at least 5 |
| Battle.Damage | desafio3/api/app.py:40-45 | the damage is undefined exactly when the defender's stronger defence is 0, and is otherwise at least 5 |
| Battle.DamageUsesMaxima | desafio3/api/app.py:41-42 | damage depends only on the stronger attack and the stronger defence |
| Battle.StrikeGrowsWithAttack | desafio3/api/app.py:44 | a stronger attack never does less damage |
| Battle.StrikeShrinksWithDefence | desafio3/api/app.py:44 | a stronger defence never takes more damage |
| Battle.First | desafio3/api/app.py:175-180 | Pokemon 1 attacks first exactly when its speed is at least Pokemon 2's, so ties go to Pokemon 1 |
| Battle.FightCrashes | desafio3/api/app.py:187-202 | from any state with both Pokémon standing the battle never answers 404, and it crashes only when one of the two defences is zero |
| Battle.FightDecided | desafio3/api/app.py:187-202 | from any reachable state a battle that ends by knock-out has one entry per turn, numbered from 1, attackers alternating, damage as defined, `0 <= hp <= hp_max`, every earlier blow leaving its defender standing, and the last blow's attacker the winner and defender (at 0) the loser |
| Battle.BattleFacts | desafio3/api/app.py:154-202 | 404 exactly when a Pokemon is missing; a crash without winner exactly when a Pokemon has no hp; a zero-defence crash only with a zero defence; otherwise a decided battle opened by the faster Pokemon, Pokemon 1 on ties |
| Battle.Hits | desafio3/api/app.py:191 | the number of blows is the hp divided by the damage, rounded up (`(n - 1) * d < hp <= n * d`), and at least one |
| Battle.FightByHits | desafio3/api/app.py:187-202 | from any state the attacker wins exactly when it needs no more blows than its opponent, and the number of turns follows from the blow counts |
| Battle.BattleByHits | desafio3/api/app.py:175-202 | with hp and defence on both sides the battle always ends; the first attacker wins iff it needs no more blows than the other, in `2k - 1` turns, else the other wins in `2k` turns of its own count |
| Battle.Fighter.constructor | desafio3/api/app.py:159-173 | a fighter starts with `hp_atual` equal to `hp_max` |
| Battle.StartBattle | desafio3/api/app.py:136-204 | the loop's answer is `Battle(p1, p2)`: the recursive specification whose properties the lemmas above state |

## Left out

- Flask plumbing is not modelled: routing, JSON (de)serialisation, `home()` listings, logging, the `__main__` bootstrap, and Flask's `<int:...>` route conversion.
- Loading the initial tables from JSON files is not modelled. The constructors take the initial tables as given.
- Health-check endpoints, the plain list endpoints (`GET /records`, `GET /customers`, `GET /rentals`, `GET /characters`) and the gateway's pass-through routes are not modelled. They are network probes, whole-table dumps, or plain forwards of the services' own answers.
- HTTP transport is reduced to a boolean per call (the `down` oracle); timeouts and error details are not modelled.
  - A request that fails is taken never to reach its service. A request that is processed but whose answer is lost is not modelled.
  - The survival service's fetch of the character list, and its 503 on failure, are not modelled. `SurvivalStats` and `ServerOverview` take the list as a parameter.
- Concurrency is not modelled. The services have no locks and the model is sequential.
- Floating point is not modelled:
  - Money is in integer cents and `round(..., 2)` is dropped.
  - `Battle.Strike` uses the integer form `int(4 * atk / defe)` of `int((atk * 2) / (defe * 0.5))`. It equals the float expression up to float rounding of very large stats.
  - The survivability score and the server overview's average stats are left out. They are float-only outputs.
- Dates are day numbers and "now" is the parameter `today`. `strftime`/`strptime` formatting is not modelled.
  - A late fee is `max(0, today - due) * price`: whole days after the due date's midnight.
  - `calculate_days_survived`, the date parse with its 0 fallback, is the parameter `daysSince`.
- The battle API's PostgreSQL writes are not modelled: the battle history row, `battle_id`, `GET /history`. The same goes for the list and detail endpoints with their Redis cache (`GET /pokemon`, `GET /pokemon/<id>`). These are storage and caching, not battle logic.
- Battle log entries hold the numbers each line prints (turn, attacker, defender, damage, hp left, hp max), not the formatted Portuguese text.
- The recommendation texts are represented by `SurvivalService.Advice` values. `SurvivalService.Text` gives the exact strings, including their misspellings, but no lemma is stated about the strings themselves.
- `SurvivalService.SurvivalStats`: each entry has no `status` text ("Surviving for N days in The Constant"), because that text is determined by the entry's `daysSurvived` and the model has no integer-to-string formatting.
- `Capitalize` and `Lower` map only the ASCII letters; Python's Unicode case mapping is not modelled.
- The `desafio1` and `desafio2` exercises are not part of this model.
- `SurvivalService.ServerOverview`: the returned structure has no average stats, because they are float-only.
- `RentalsService.LateFee`: the value `(today - due).days` is modelled as the difference of day numbers. This ignores the time of day, which can only matter on the due day itself, where the fee is 0 either way.
