/**
 * The reconciliation plan of manage_user_status_and_roles (bot.py:99-191)
 * and the two callers that change a score and then reconcile: the
 * forbidden-word handler of on_message (bot.py:248-296) and the admin
 * give/take/set operation (bot.py:331-359).
 *
 * The plan is what the bot then carries out against the platform; carrying
 * it out and announcing it are outside this model.
 */
module Engine {
  import opened Wrappers
  import opened Ranks
  import opened Store
  import opened Roles
  import opened Timeout

  /** Credits taken for one message matching the forbidden pattern. */
  const ForbiddenWordPenalty := 1000

  /** Roles to take away, the role action, and the timeout directive. */
  datatype Plan = Plan(remove: seq<string>, add: RoleAction, timeout: Directive)

  /** What a score change hands back: the score before and after, and the plan. */
  datatype CreditChange = CreditChange(oldCredits: int, newCredits: int, plan: Plan)

  /**
   * The plan for a member whose score is now `newCredits`, who holds
   * `held`, in a guild that has `guildRoles`, with timeout end `until`.
   */
  function Reconcile(held: seq<string>, guildRoles: seq<string>, until: Option<int>, now: int, newCredits: int): (p: Plan)
    ensures var newRole := Classify(SocialRanks, newCredits).role;
      && (forall x :: x in p.remove <==> x in held && x in RankRoleNames(SocialRanks) && x != newRole)
      && (p.add.Add? <==> newRole in guildRoles && newRole !in held)
      && (p.add.Add? ==> p.add.role == newRole)
      && (p.add.MissingInGuild? <==> newRole !in guildRoles)
      && (p.add.MissingInGuild? ==> p.add.role == newRole)
    ensures p.timeout == TimeoutDirective(newCredits, until, now)
  {
    SocialRanksHaveRoles(newCredits);
    var newRole := Classify(SocialRanks, newCredits).role;
    Plan(RolesToRemove(held, RankRoleNames(SocialRanks), newRole),
         RoleToAdd(held, guildRoles, newRole),
         TimeoutDirective(newCredits, until, now))
  }

  /** Every rank of the bot's table has a role name. */
  lemma SocialRanksHaveRoles(score: int)
    ensures Classify(SocialRanks, score).role != ""
    ensures Classify(SocialRanks, score).role in RankRoleNames(SocialRanks)
  {
    var i := RankIndex(SocialRanks, score);
    assert SocialRanks[i].role != "";
  }

  /**
   * Carrying a plan out and reconciling again with the same score at the
   * same time yields an empty plan: nothing to remove, nothing to add and
   * no timeout action.
   */
  lemma ReconcileIdempotent(held: seq<string>, guildRoles: seq<string>, until: Option<int>, now: int, newCredits: int)
    ensures var p := Reconcile(held, guildRoles, until, now, newCredits);
      var p' := Reconcile(RolesAfter(held, p.remove, p.add), guildRoles, EndAfter(until, p.timeout), now, newCredits);
      p'.remove == [] && !p'.add.Add? && p'.timeout == NoAction
  {
    var newRole := Classify(SocialRanks, newCredits).role;
    ReconcileRolesIdempotent(held, guildRoles, RankRoleNames(SocialRanks), newRole);
    TimeoutDirectiveIdempotent(newCredits, until, now);
  }

  /**
   * The plan as the bot derives it: the role half from the new rank, the
   * timeout half through the step-by-step decision of `DecideTimeout`.
   */
  method ManageStatus(held: seq<string>, guildRoles: seq<string>, until: Option<int>, now: int, newCredits: int)
    returns (p: Plan)
    ensures p == Reconcile(held, guildRoles, until, now, newCredits)
  {
    var newRole := Classify(SocialRanks, newCredits).role;
    var remove := RolesToRemove(held, RankRoleNames(SocialRanks), newRole);
    var add := RoleToAdd(held, guildRoles, newRole);
    var directive := DecideTimeout(newCredits, until, now);
    p := Plan(remove, add, directive);
  }

  /**
   * A message from `user` in `guild`: when it comes from a guild member who
   * is not a bot and `matched` (the forbidden pattern was found in it), the
   * penalty is deducted, the violation is recorded and the plan for the new
   * score is returned; otherwise nothing changes.
   */
  method OnMessage(ledger: Ledger, guild: int, user: int, authorIsBot: bool, fromGuildMember: bool, matched: bool,
                   held: seq<string>, guildRoles: seq<string>, until: Option<int>, now: int)
    returns (r: Option<CreditChange>)
    modifies ledger
    ensures !(!authorIsBot && fromGuildMember && matched) ==>
      r.None? && ledger.credits == old(ledger.credits) && ledger.stats == old(ledger.stats)
    ensures !authorIsBot && fromGuildMember && matched ==>
      && r.Some?
      && r.value.oldCredits == CreditOf(old(ledger.credits), guild, user)
      && r.value.newCredits == r.value.oldCredits - ForbiddenWordPenalty
      && ledger.credits == WithCredit(old(ledger.credits), guild, user, r.value.newCredits)
      && ledger.stats == WithViolation(old(ledger.stats), guild, user, ForbiddenWordPenalty)
      && r.value.plan == Reconcile(held, guildRoles, until, now, r.value.newCredits)
  {
    if authorIsBot || !fromGuildMember || !matched {
      return None;
    }
    var oldCredits, newCredits := ledger.UpdateCredits(guild, user, -ForbiddenWordPenalty, true);
    ledger.UpdateForbiddenStats(guild, user, ForbiddenWordPenalty);
    var plan := ManageStatus(held, guildRoles, until, now, newCredits);
    r := Some(CreditChange(oldCredits, newCredits, plan));
  }

  /**
   * The admin give/take/set operation: adds `amount` when `isDelta`, else
   * sets the score to `amount`, and returns the plan for the new score.
   * The violation statistics are not touched.
   */
  method AdminCreditOperation(ledger: Ledger, guild: int, user: int, amount: int, isDelta: bool,
                              held: seq<string>, guildRoles: seq<string>, until: Option<int>, now: int)
    returns (r: CreditChange)
    modifies ledger
    ensures r.oldCredits == CreditOf(old(ledger.credits), guild, user)
    ensures r.newCredits == if isDelta then r.oldCredits + amount else amount
    ensures ledger.credits == WithCredit(old(ledger.credits), guild, user, r.newCredits)
    ensures ledger.stats == old(ledger.stats)
    ensures r.plan == Reconcile(held, guildRoles, until, now, r.newCredits)
  {
    var oldCredits, newCredits;
    if isDelta {
      oldCredits, newCredits := ledger.UpdateCredits(guild, user, amount, true);
    } else {
      oldCredits := ledger.Credits(guild, user);
      var _, setTo := ledger.UpdateCredits(guild, user, amount, false);
      newCredits := setTo;
    }
    var plan := ManageStatus(held, guildRoles, until, now, newCredits);
    r := CreditChange(oldCredits, newCredits, plan);
  }
}
