# Social-credit moderation engine — Dafny model

This project models the score-to-consequence engine of a Discord moderation
bot (`bot.py`). Every member of a guild has an integer "social credit" score
(1000 when the bot has never seen them). A message matching the forbidden
pattern costs 1000 credits and is counted in the member's violation record.
Administrators can add to, take from or set a score. After every change the
bot works out two things. It works out which rank roles the member should
lose and whether the new rank's role should be added. It also decides
whether the member's timeout should be applied, extended or lifted.

Modules, one per file:

- `wrappers.dfy` — `Option`.
- `ranks.dfy` — the rank table (`SocialRanks`, minus infinity as the
  `NegInf` threshold) and the classifier. The search over the reversed table
  is the recursive `SearchDown`.
- `store.dfy` — the credit store and the violation-statistics store as
  nested maps guild → user → value. The pure functions `CreditOf`,
  `WithCredit`, `StatsOf` and `WithViolation` say what a read and a write
  mean. The class `Ledger` holds both maps and updates them in place, one
  atomic read-modify-write per method.
- `roles.dfy` — which rank roles to remove and whether to add the new one.
  Roles are identified by name.
- `timeout.dfy` — timeout length and the apply / extend / lift decision.
  Times are whole seconds, and `now` is an input.
- `engine.dfy` — the reconciliation plan, and the two callers that change a
  score and then reconcile: the forbidden-word handler and the admin
  give/take/set operation.

Details of the bot's behaviour that the model keeps:

- Applying and extending a timeout both pass the new END time (now plus the
  length) to the platform, bot.py:177 and bot.py:191.
- The new rank's role is added only when the guild has a role of that name
  and the member does not hold it, bot.py:122-127. A role missing from the
  guild is reported (`MissingInGuild`) and nothing is added, bot.py:136-141.
- The violation penalty is any integer, bot.py:85-89; the only caller passes
  1000, bot.py:268.
- The roles to remove are a list in the member's role order, bot.py:112.

## Model

| member | source | states |
|---|---|---|
| `Ranks.SocialRanksWellFormed` | bot.py:45-53 | the bot's table starts with a minus-infinity floor and its thresholds strictly increase |
| `Ranks.SearchDown` | bot.py:93-94 | the reversed-table search returns the highest index below `k` whose threshold the score reaches, and returns nothing only when no entry below `k` is reached |
| `Ranks.RankIndex` | bot.py:92-96 | the classifier's index is in range; with a minus-infinity floor it is the last entry whose threshold is at most the score |
| `Ranks.Classify` | bot.py:92-96 | with a floor, the result is the name and role of the rank entry, and its text is `icon + " " + name` |
| `Ranks.FallbackUnreachable` | bot.py:95-96 | with a minus-infinity floor the search always finds an entry, so the fallback to the first entry is never taken |
| `Ranks.RankUnique` | bot.py:93-94 | at most one entry is the rank of a given score |
| `Ranks.RankMonotone` | bot.py:93-94 | a higher score never gets a lower rank index |
| `Ranks.RankInterval` | bot.py:45-53 | in a well-formed table, entry i is the rank exactly when the score reaches threshold i and not threshold i+1 (both directions) |
| `Ranks.SocialRanksExamples` | bot.py:45-53 | -1 is Social Outcast, 0 and 499 Suspicious Citizen, 1000 Ordinary Citizen (text with its icon), 1500 Model Citizen, 4999 Pride of the Party, 5000 Great Helmsman |
| `Store.CreditOf` | bot.py:70-72 | a stored score is returned as stored; a missing guild or user reads as 1000 |
| `Store.WithCredit` | bot.py:76-79 | after the write, (guild, user) reads the new value, every other (guild, user) reads as before, and the guild key exists |
| `Store.StatsOf` | bot.py:86-88 | a stored record is returned as stored; a missing one reads as count 0, deducted 0 |
| `Store.WithViolation` | bot.py:85-90 | one violation adds exactly 1 to the count and exactly the penalty to the deducted total, never lowers the total for a non-negative penalty, and leaves every other member's record unchanged |
| `Store.Ledger.constructor` | bot.py:245-246 | both stores start empty |
| `Store.Ledger.UpdateCredits` | bot.py:74-81 | returns the old score (stored or 1000) and the new one (old + amount when adding, else amount); the credit store becomes the single write of the new value and the stats store is untouched |
| `Store.Ledger.UpdateForbiddenStats` | bot.py:85-90 | the stats store becomes the one-violation update of the old store and the credit store is untouched |
| `Store.RepeatDeltaNoLostUpdates` | bot.py:74-81 | n serialised changes by delta move the score by exactly n·delta and leave every other member's score unchanged |
| `Store.RepeatViolationCounts` | bot.py:85-90 | n recorded violations add exactly n to the count and n·penalty to the total, and touch no other record |
| `Store.FreshMemberTwoPenalties` | bot.py:77-78 | an unseen member reads 1000; one penalty of 1000 takes them to 0, a second to -1000 |
| `Roles.RankRoleNames` | bot.py:111 | the rank role names are exactly the non-empty role names of the table |
| `Roles.RolesToRemove` | bot.py:112 | a role is removed exactly when the member holds it, it is a rank role, and it is not the new rank's role; each is removed as often as it is held, and non-rank roles never are |
| `Roles.RoleToAdd` | bot.py:122-141 | each of the four outcomes is fixed: no rank role exactly when the name is empty, missing exactly when the guild lacks it, already held exactly when the guild has it and the member holds it, added exactly when the guild has it and the member does not |
| `Roles.ReconcileRolesIdempotent` | bot.py:111-127 | afterwards every non-rank role is kept, no rank role but the new one is held, the new role is held whenever the guild has it, and reconciling again removes and adds nothing |
| `Timeout.TimeoutSeconds` | bot.py:169-174 | the length is at most 28 days and a multiple of ten minutes; it is non-zero exactly for scores of -1000 or below, and for negative scores it is min(full thousands · 600 s, 28 days) |
| `Timeout.TimeoutDirective` | bot.py:146-188 | a score of zero or more lifts exactly an active timeout and does nothing else; a negative score applies exactly when the length is non-zero and no timeout is active, and extends exactly when one is active and now + length is strictly later than its end, both to now + length |
| `Timeout.DecideTimeout` | bot.py:176-189 | the bot's flag-and-reason steps produce exactly the policy's directive |
| `Timeout.TimeoutNeverShortened` | bot.py:177-191 | for a negative score with a non-zero length, the resulting end is the later of the active end and now + length: escalation without shortening |
| `Timeout.Amnesty` | bot.py:146-149 | with a score of zero or more no timeout is active after the directive, however long it was |
| `Timeout.TimeoutDirectiveIdempotent` | bot.py:146-189 | carrying the directive out and deciding again at the same time with the same score gives no action |
| `Timeout.TimeoutSecondsMonotone` | bot.py:170-174 | a lower score never gets a shorter timeout |
| `Timeout.TimeoutSecondsExamples` | bot.py:144-174 | -1000 gives 600 s, -2500 gives 1200 s, -999 and -1 give none, and any score of -4032000 or below gives exactly 2419200 s |
| `Engine.SocialRanksHaveRoles` | bot.py:45-53 | every rank of the bot's table has a non-empty role name, and that name is one of the rank role names |
| `Engine.Reconcile` | bot.py:108-191 | the plan removes exactly the held rank roles other than the new rank's, adds the new rank's role exactly when the guild has it and the member lacks it, reports that role as missing exactly when the guild lacks it, and carries the timeout policy's directive for the new score |
| `Engine.ManageStatus` | bot.py:99-191 | the bot's derivation of the plan, with the timeout taken from the step-by-step decision, yields exactly the plan `Reconcile` specifies |
| `Engine.ReconcileIdempotent` | bot.py:108-191 | carrying a plan out and reconciling again with the same score at the same time gives an empty plan |
| `Engine.OnMessage` | bot.py:249-282 | a matching message from a non-bot guild member deducts 1000 credits, records one violation of 1000 and returns the plan for the new score; any other message changes nothing |
| `Engine.AdminCreditOperation` | bot.py:331-359 | give/take adds the amount and set stores it, returning the old and new score and the plan; violation stats are untouched |

## Left out

- Platform effects are not modelled: removing and adding roles, applying and
  lifting timeouts, deleting the message, and sending channel messages and
  DMs. Their permission and HTTP error branches are left out too. The model
  computes the decision only; the platform and its failures are outside it.
- Embed construction and message text are not modelled; they are
  presentation only.
- Reading and writing the two JSON files is not modelled. The stores are
  abstract maps. A corrupt file, which the bot reads as an empty store, is
  not modelled.
- The forbidden-pattern regular expression is not modelled. Its outcome is
  the `matched` input of `OnMessage`. Likewise "author is a bot" and "sent in
  a guild by a member" are boolean inputs.
- The slash-command wiring, the argument range checks (1..1000000 for
  give/take), the error handler and startup are left out as framework code.
  The `check` command is a read: `CreditOf` followed by `Classify`.
- The leaderboard and the list of violators are not modelled. They are
  sorting and rendering interleaved with member fetches.
- Concurrency is not modelled: the model is sequential, and each ledger
  method is one atomic map update.
- Real `datetime` values are replaced by whole seconds and an explicit
  `now`. The bot reads the clock separately at bot.py:147, 177 and 181;
  the model uses one reading for all three, which can differ from the bot
  only in choosing Apply or Extend within microseconds, never in the end
  time.
- Roles are compared by name. The bot looks up the guild role by name and
  then tests whether the member holds that role object. The two differ only
  when a guild has several roles of the same name, which is not modelled.
- The `old_credits` argument of the reconciliation is unused by the bot and
  is not an input of `Engine.Reconcile`.
