/**
 * Rank-role reconciliation, the first half of manage_user_status_and_roles
 * (bot.py:108-141). Roles are identified by name; the member's roles and
 * the guild's roles are lists of names.
 */
module Roles {
  import opened Ranks

  /** What to do about the new rank's role. */
  datatype RoleAction =
    | NoRankRole                    // the rank has no role name
    | MissingInGuild(role: string)  // the guild has no role of that name: reported, nothing added
    | AlreadyHeld                   // the member holds it already
    | Add(role: string)             // add it

  /** The non-empty role names of a table, in table order. */
  function RankRoleNames(table: seq<Rank>): (names: seq<string>)
    ensures forall i :: 0 <= i < |table| && table[i].role != "" ==> table[i].role in names
    ensures forall n :: n in names ==> n != "" && exists i :: 0 <= i < |table| && table[i].role == n
  {
    if table == [] then []
    else
      var rest := RankRoleNames(table[1..]);
      assert forall i :: 1 <= i < |table| ==> table[i] == table[1..][i - 1];
      if table[0].role != "" then [table[0].role] + rest else rest
  }

  /**
   * The held roles to take away: those that are rank roles other than the
   * new rank's role, in the order the member holds them.
   */
  function RolesToRemove(held: seq<string>, rankRoles: seq<string>, newRole: string): (r: seq<string>)
    ensures forall x :: x in r <==> x in held && x in rankRoles && x != newRole
    ensures forall x :: multiset(r)[x] == if x in rankRoles && x != newRole then multiset(held)[x] else 0
  {
    if held == [] then []
    else
      var rest := RolesToRemove(held[1..], rankRoles, newRole);
      assert held == [held[0]] + held[1..];
      if held[0] in rankRoles && held[0] != newRole then [held[0]] + rest else rest
  }

  /**
   * The new rank's role is added only when the rank has a role name, the
   * guild has a role of that name and the member does not hold it yet.
   */
  function RoleToAdd(held: seq<string>, guildRoles: seq<string>, newRole: string): (a: RoleAction)
    ensures a.NoRankRole? <==> newRole == ""
    ensures a.Add? <==> newRole != "" && newRole in guildRoles && newRole !in held
    ensures a.Add? ==> a.role == newRole
    ensures a.MissingInGuild? <==> newRole != "" && newRole !in guildRoles
    ensures a.AlreadyHeld? <==> newRole != "" && newRole in guildRoles && newRole in held
    ensures a.MissingInGuild? ==> a.role == newRole
  {
    if newRole == "" then NoRankRole
    else if newRole !in guildRoles then MissingInGuild(newRole)
    else if newRole in held then AlreadyHeld
    else Add(newRole)
  }

  /** `held` without the roles in `drop`, in order. */
  function Without(held: seq<string>, drop: seq<string>): (r: seq<string>)
    ensures forall x :: x in r <==> x in held && x !in drop
  {
    if held == [] then []
    else
      var rest := Without(held[1..], drop);
      assert held == [held[0]] + held[1..];
      if held[0] in drop then rest else [held[0]] + rest
  }

  /** The member's roles once the removals and the addition have been carried out. */
  function RolesAfter(held: seq<string>, remove: seq<string>, add: RoleAction): seq<string>
  {
    Without(held, remove) + (if add.Add? then [add.role] else [])
  }

  /**
   * After reconciliation the member holds no rank role but the new one,
   * keeps every role that is not a rank role, holds the new role whenever
   * the guild has it, and a second reconciliation changes nothing.
   */
  lemma ReconcileRolesIdempotent(held: seq<string>, guildRoles: seq<string>, rankRoles: seq<string>, newRole: string)
    ensures var after := RolesAfter(held, RolesToRemove(held, rankRoles, newRole), RoleToAdd(held, guildRoles, newRole));
      && (forall x :: x in held && x !in rankRoles ==> x in after)
      && (forall x :: x in after && x in rankRoles ==> x == newRole)
      && (newRole != "" && newRole in guildRoles ==> newRole in after)
      && RolesToRemove(after, rankRoles, newRole) == []
      && !RoleToAdd(after, guildRoles, newRole).Add?
  {
    var removed := RolesToRemove(held, rankRoles, newRole);
    var add := RoleToAdd(held, guildRoles, newRole);
    var after := RolesAfter(held, removed, add);
  }
}
