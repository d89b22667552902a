/**
 * The plugin's configuration and the three permission conditions its commands
 * test before doing anything.
 */
module Permission {
  import opened Options

  /**
   * `超级管理员` (super-admins), `自我繁殖` (admins may add admins) and
   * `自相残杀` (admins may remove admins).
   */
  datatype Config = Config(superAdmins: seq<string>, selfPropagation: bool, selfElimination: bool)

  /** The configuration with the schema's defaults: both flags off. */
  function DefaultConfig(superAdmins: seq<string>): Config
  {
    Config(superAdmins, false, false)
  }

  /** Adding, adjusting, setting, removing and clearing: super-admins only; no admin list is consulted. */
  predicate MayManage(c: Config, actor: string)
  {
    actor in c.superAdmins
  }

  /** Adding an admin: a super-admin, or, with `自我繁殖` on, someone on the guild's list. */
  predicate MayAddAdmin(c: Config, admins: Option<seq<string>>, actor: string)
  {
    actor in c.superAdmins || (c.selfPropagation && admins.Some? && actor in admins.value)
  }

  /** Removing an admin: a super-admin, or, with `自相残杀` on, someone on the guild's list. */
  predicate MayRemoveAdmin(c: Config, admins: Option<seq<string>>, actor: string)
  {
    actor in c.superAdmins || (c.selfElimination && admins.Some? && actor in admins.value)
  }

  /**
   * For someone who is not a super-admin, being on the guild's list with
   * `自我繁殖` on is both necessary and sufficient to add admins; a guild
   * without a list grants nothing.
   */
  lemma AddAdminPermission(c: Config, admins: Option<seq<string>>, actor: string)
    requires actor !in c.superAdmins
    ensures MayAddAdmin(c, admins, actor) <==> c.selfPropagation && admins.Some? && actor in admins.value
    ensures !MayAddAdmin(c, None, actor)
  {
  }

  /** The same for removing admins, with `自相残杀` as the flag. */
  lemma RemoveAdminPermission(c: Config, admins: Option<seq<string>>, actor: string)
    requires actor !in c.superAdmins
    ensures MayRemoveAdmin(c, admins, actor) <==> c.selfElimination && admins.Some? && actor in admins.value
    ensures !MayRemoveAdmin(c, None, actor)
  {
  }

  /** With the default flags every permission is the super-admin test, whatever the lists say. */
  lemma DefaultsSuperAdminOnly(superAdmins: seq<string>, admins: Option<seq<string>>, actor: string)
    ensures MayAddAdmin(DefaultConfig(superAdmins), admins, actor) <==> actor in superAdmins
    ensures MayRemoveAdmin(DefaultConfig(superAdmins), admins, actor) <==> actor in superAdmins
    ensures MayManage(DefaultConfig(superAdmins), actor) <==> actor in superAdmins
  {
  }
}
