/**
 * Role propagation: the first value of the rewritten `role` attribute goes
 * into the arguments of a new WordPress user (filter_insert_user) and onto an
 * authenticated user (action_user_authn), provided PHP does not consider it
 * empty.
 */
module UserProvisioning {
  import opened Php
  import opened AttributeFilter

  /** `$attributes['role'][0]` when it exists and is not `empty()`. */
  function AssignedRole(attrs: Attributes): Option<string>
  {
    if Role in attrs && |attrs[Role]| > 0 && !EmptyString(attrs[Role][0]) then Some(attrs[Role][0])
    else None
  }

  /** filter_insert_user: sets `role` in the insert arguments to the first
      assigned role when there is one; every other entry is untouched. A
      role of `""` or `"0"` (PHP's `empty`) is never assigned. */
  function FilterInsertUser(userArgs: map<string, string>, attrs: Attributes): (r: map<string, string>)
    ensures r.Keys == userArgs.Keys + (if AssignedRole(attrs).Some? then {Role} else {})
    ensures forall k :: k in userArgs && k != Role ==> r[k] == userArgs[k]
    ensures Role in r ==>
              r[Role] == if AssignedRole(attrs).Some? then attrs[Role][0] else userArgs[Role]
    ensures Role in r ==> (r[Role] != "" && r[Role] != "0") || (Role in userArgs && r[Role] == userArgs[Role])
  {
    match AssignedRole(attrs)
    case Some(role) => userArgs[Role := role]
    case None => userArgs
  }

  /** A WordPress user as the plugin sees it: its roles in memory, the roles
      last written back by an update call (the comment beside that call says
      it is there so that administrators see the current roles), and how
      many update calls were made. */
  class WpUser {
    var roles: seq<string>
    var storedRoles: seq<string>
    var saves: nat

    constructor (roles: seq<string>)
      ensures this.roles == roles && storedRoles == roles && saves == 0
    {
      this.roles := roles;
      storedRoles := roles;
      saves := 0;
    }

    /** WP_User::set_role: the user ends with exactly this one role. */
    method SetRole(role: string)
      modifies this
      ensures roles == [role]
      ensures storedRoles == old(storedRoles) && saves == old(saves)
    {
      roles := [role];
    }

    /** wp_update_user: one update call, taken to write back the current roles. */
    method Update()
      modifies this
      ensures storedRoles == roles && roles == old(roles)
      ensures saves == old(saves) + 1
    {
      storedRoles := roles;
      saves := saves + 1;
    }
  }

  /** action_user_authn: when the attributes assign a role, the user is given
      exactly that role and saved once; otherwise the user is left alone. */
  method ActionUserAuthn(user: WpUser, attrs: Attributes)
    modifies user
    ensures AssignedRole(attrs).Some? ==>
              user.roles == [attrs[Role][0]] && user.storedRoles == [attrs[Role][0]] &&
              user.saves == old(user.saves) + 1
    ensures AssignedRole(attrs).None? ==> unchanged(user)
  {
    match AssignedRole(attrs)
    case Some(role) =>
      user.SetRole(role);
      user.Update();
    case None =>
  }

  /** End to end: when group `j` is the last group whose rule writes `role`
      and it maps to a non-empty role, a new user is inserted with that role
      and its other arguments as given. */
  lemma InsertedWithMappedRole(userArgs: map<string, string>, attrs: Attributes, rules: GroupRules, j: nat)
    requires rules.groupAttribute.Some? && rules.groupAttribute.value in attrs
    requires j < |attrs[rules.groupAttribute.value]|
    requires attrs[rules.groupAttribute.value][j] !in rules.users
    requires attrs[rules.groupAttribute.value][j] in rules.roles
    requires !EmptyString(rules.roles[attrs[rules.groupAttribute.value][j]])
    requires forall i :: j < i < |attrs[rules.groupAttribute.value]| ==>
               GroupWrite(rules, attrs[rules.groupAttribute.value][i], Role).None?
    ensures FilterInsertUser(userArgs, Rewrite(attrs, rules)) ==
              userArgs[Role := rules.roles[attrs[rules.groupAttribute.value][j]]]
  {
    LastRoleWins(attrs, rules, j);
  }

  /** End to end: when no group rule writes `role` and the IdP asserted none,
      the insert arguments come through unchanged. */
  lemma InsertedUnchangedWithoutRole(userArgs: map<string, string>, attrs: Attributes, rules: GroupRules)
    requires Role !in attrs
    requires rules.groupAttribute.Some? && rules.groupAttribute.value in attrs ==>
               forall i :: 0 <= i < |attrs[rules.groupAttribute.value]| ==>
                 GroupWrite(rules, attrs[rules.groupAttribute.value][i], Role).None?
    ensures FilterInsertUser(userArgs, Rewrite(attrs, rules)) == userArgs
  {
    if rules.groupAttribute.Some? && rules.groupAttribute.value in attrs {
      var groups := attrs[rules.groupAttribute.value];
      LastWriteNone(rules, groups, Role);
      ApplyGroupsAt(attrs, rules, groups, Role);
    }
  }
}
