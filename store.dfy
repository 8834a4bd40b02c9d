/**
 * The credit ledger and the violation-statistics store (bot.py:70-90).
 *
 * Both stores are nested maps guild id -> user id -> value, as the bot's two
 * JSON files are. Loading and saving the files is abstracted away: the class
 * `Ledger` holds both maps, and each of its methods is one atomic
 * read-modify-write of them.
 */
module Store {

  /** The score of a member the ledger has never seen. */
  const DefaultCredits := 1000

  /** One member's violation record: how often they were caught and how much was deducted. */
  datatype ViolationStats = ViolationStats(count: nat, deducted: int)

  type CreditStore = map<int, map<int, int>>
  type StatsStore = map<int, map<int, ViolationStats>>

  /** The stored score of (guild, user), or the default when either key is missing. */
  function CreditOf(m: CreditStore, guild: int, user: int): (c: int)
    ensures guild in m && user in m[guild] ==> c == m[guild][user]
    ensures !(guild in m && user in m[guild]) ==> c == DefaultCredits
  {
    var guildData := if guild in m then m[guild] else map[];
    if user in guildData then guildData[user] else DefaultCredits
  }

  /**
   * The store after writing `value` for (guild, user); the guild's entry is
   * created if it did not exist.
   */
  function WithCredit(m: CreditStore, guild: int, user: int, value: int): (m': CreditStore)
    ensures CreditOf(m', guild, user) == value
    ensures forall g, u :: (g, u) != (guild, user) ==> CreditOf(m', g, u) == CreditOf(m, g, u)
    ensures m'.Keys == m.Keys + {guild}
  {
    var guildData := if guild in m then m[guild] else map[];
    m[guild := guildData[user := value]]
  }

  /** The record of (guild, user), or a zero record when either key is missing. */
  function StatsOf(m: StatsStore, guild: int, user: int): (s: ViolationStats)
    ensures guild in m && user in m[guild] ==> s == m[guild][user]
    ensures !(guild in m && user in m[guild]) ==> s == ViolationStats(0, 0)
  {
    var guildStats := if guild in m then m[guild] else map[];
    if user in guildStats then guildStats[user] else ViolationStats(0, 0)
  }

  /**
   * The store after one more violation of (guild, user) with `penalty`
   * deducted: the count grows by one, the deducted total by the penalty,
   * every other member's record stays as it was.
   */
  function WithViolation(m: StatsStore, guild: int, user: int, penalty: int): (m': StatsStore)
    ensures StatsOf(m', guild, user).count == StatsOf(m, guild, user).count + 1
    ensures StatsOf(m', guild, user).deducted == StatsOf(m, guild, user).deducted + penalty
    ensures penalty >= 0 ==> StatsOf(m', guild, user).deducted >= StatsOf(m, guild, user).deducted
    ensures forall g, u :: (g, u) != (guild, user) ==> StatsOf(m', g, u) == StatsOf(m, g, u)
    ensures m'.Keys == m.Keys + {guild}
  {
    var guildStats := if guild in m then m[guild] else map[];
    var s := if user in guildStats then guildStats[user] else ViolationStats(0, 0);
    m[guild := guildStats[user := ViolationStats(s.count + 1, s.deducted + penalty)]]
  }

  /** The two stores of the bot, updated in place. */
  class Ledger {
    var credits: CreditStore
    var stats: StatsStore

    /** Both stores start empty, as the bot creates them when its files are missing. */
    constructor ()
      ensures credits == map[] && stats == map[]
    {
      credits := map[];
      stats := map[];
    }

    /** The current score of (guild, user). */
    function Credits(guild: int, user: int): int
      reads this
    {
      CreditOf(credits, guild, user)
    }

    /**
     * Adds `amount` to the score of (guild, user), or sets it to `amount`
     * when `add` is false, and returns the scores before and after.
     */
    method UpdateCredits(guild: int, user: int, amount: int, add: bool) returns (oldCredits: int, newCredits: int)
      modifies this
      ensures oldCredits == CreditOf(old(credits), guild, user)
      ensures newCredits == if add then oldCredits + amount else amount
      ensures credits == WithCredit(old(credits), guild, user, newCredits)
      ensures stats == old(stats)
    {
      var guildData := if guild in credits then credits[guild] else map[];
      oldCredits := if user in guildData then guildData[user] else DefaultCredits;
      newCredits := if add then oldCredits + amount else amount;
      guildData := guildData[user := newCredits];
      credits := credits[guild := guildData];
    }

    /** Records one violation of (guild, user) with `penalty` deducted. */
    method UpdateForbiddenStats(guild: int, user: int, penalty: int)
      modifies this
      ensures stats == WithViolation(old(stats), guild, user, penalty)
      ensures credits == old(credits)
    {
      var guildStats := if guild in stats then stats[guild] else map[];
      var userStats := if user in guildStats then guildStats[user] else ViolationStats(0, 0);
      userStats := userStats.(count := userStats.count + 1, deducted := userStats.deducted + penalty);
      guildStats := guildStats[user := userStats];
      stats := stats[guild := guildStats];
    }
  }

  /** `n` score changes by `delta` to (guild, user), applied one after another. */
  function RepeatDelta(m: CreditStore, guild: int, user: int, delta: int, n: nat): CreditStore
    decreases n
  {
    if n == 0 then m
    else RepeatDelta(WithCredit(m, guild, user, CreditOf(m, guild, user) + delta), guild, user, delta, n - 1)
  }

  /**
   * Serialised updates lose nothing: after `n` changes by `delta` the score
   * has moved by exactly `n * delta`, and no other member's score has moved.
   */
  lemma {:induction false} RepeatDeltaNoLostUpdates(m: CreditStore, guild: int, user: int, delta: int, n: nat)
    ensures CreditOf(RepeatDelta(m, guild, user, delta, n), guild, user) == CreditOf(m, guild, user) + n * delta
    ensures forall g, u :: (g, u) != (guild, user) ==>
      CreditOf(RepeatDelta(m, guild, user, delta, n), g, u) == CreditOf(m, g, u)
    decreases n
  {
    if n > 0 {
      var m1 := WithCredit(m, guild, user, CreditOf(m, guild, user) + delta);
      RepeatDeltaNoLostUpdates(m1, guild, user, delta, n - 1);
      assert (n - 1) * delta + delta == n * delta;
    }
  }

  /** `n` violations of (guild, user), each with `penalty` deducted, recorded one after another. */
  function RepeatViolation(m: StatsStore, guild: int, user: int, penalty: int, n: nat): StatsStore
    decreases n
  {
    if n == 0 then m
    else RepeatViolation(WithViolation(m, guild, user, penalty), guild, user, penalty, n - 1)
  }

  /** After `n` recorded violations the count has grown by `n` and the total by `n * penalty`. */
  lemma {:induction false} RepeatViolationCounts(m: StatsStore, guild: int, user: int, penalty: int, n: nat)
    ensures StatsOf(RepeatViolation(m, guild, user, penalty, n), guild, user).count
         == StatsOf(m, guild, user).count + n
    ensures StatsOf(RepeatViolation(m, guild, user, penalty, n), guild, user).deducted
         == StatsOf(m, guild, user).deducted + n * penalty
    ensures forall g, u :: (g, u) != (guild, user) ==>
      StatsOf(RepeatViolation(m, guild, user, penalty, n), g, u) == StatsOf(m, g, u)
    decreases n
  {
    if n > 0 {
      RepeatViolationCounts(WithViolation(m, guild, user, penalty), guild, user, penalty, n - 1);
      assert (n - 1) * penalty + penalty == n * penalty;
    }
  }

  /**
   * A member the ledger has never seen starts at 1000; a penalty of 1000
   * takes them to 0 and a second one to -1000.
   */
  lemma FreshMemberTwoPenalties(m: CreditStore, guild: int, user: int)
    requires guild !in m || user !in m[guild]
    ensures CreditOf(m, guild, user) == 1000
    ensures CreditOf(RepeatDelta(m, guild, user, -1000, 1), guild, user) == 0
    ensures CreditOf(RepeatDelta(m, guild, user, -1000, 2), guild, user) == -1000
  {
    RepeatDeltaNoLostUpdates(m, guild, user, -1000, 1);
    RepeatDeltaNoLostUpdates(m, guild, user, -1000, 2);
  }
}
