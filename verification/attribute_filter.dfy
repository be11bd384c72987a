/**
 * The attribute rewriting that Stanford_Auth::filter_attributes performs on
 * the attributes the identity provider asserted, before the SAML plugin
 * looks the user up: group memberships are mapped to a user (a login name,
 * or a set of attributes) or to a role, then `eppn` and `mail` are filled
 * in from fallbacks.
 */
module AttributeFilter {
  import opened Php

  /** Attribute name => the values asserted for it, in order. */
  type Attributes = map<string, seq<string>>

  const Eppn := "eppn"
  const Mail := "mail"
  const Role := "role"
  const PrincipalName := "eduPersonPrincipalName"

  /** One entry of the `groups_to_users` option: a scalar names the login
      (`eppn`) outright; an array lists attribute => value pairs to assert. */
  datatype UserMapping = Login(login: string) | Assign(pairs: seq<(string, string)>)

  /** The three options filter_attributes reads: the attribute that carries
      group names (None when the option is not usable as an array key), and
      the two group tables. */
  datatype GroupRules = GroupRules(
    groupAttribute: Option<string>,
    users: map<string, UserMapping>,
    roles: map<string, string>)

  // ---------------------------------------------------------------------
  // Reading the group tables out of option values
  // ---------------------------------------------------------------------

  /** The user mapping an entry of `groups_to_users` denotes (`is_array`). */
  function UserMappingOf(v: Value): UserMapping
  {
    match v
    case Arr(entries) =>
      Assign(seq(|entries|, i requires 0 <= i < |entries| => (entries[i].0, ToStr(entries[i].1))))
    case _ => Login(ToStr(v))
  }

  /** The group => user mapping table held by a `groups_to_users` value: a
      group has an entry exactly when `isset($user_mapping[$group])`. */
  function UsersOf(option: Value): (users: map<string, UserMapping>)
    ensures forall g :: g in users <==> Isset(Index(option, g))
    ensures forall g :: g in users ==> users[g] == UserMappingOf(Index(option, g))
  {
    if option.Arr? then
      map g | g in (set i | 0 <= i < |option.entries| :: option.entries[i].0) && Isset(Index(option, g))
        :: UserMappingOf(Index(option, g))
    else map[]
  }

  /** The group => role table held by a `groups_to_roles` value: a group has
      an entry exactly when `isset($role_mapping[$group])`. */
  function RolesOf(option: Value): (roles: map<string, string>)
    ensures forall g :: g in roles <==> Isset(Index(option, g))
    ensures forall g :: g in roles ==> roles[g] == ToStr(Index(option, g))
  {
    if option.Arr? then
      map g | g in (set i | 0 <= i < |option.entries| :: option.entries[i].0) && Isset(Index(option, g))
        :: ToStr(Index(option, g))
    else map[]
  }

  // ---------------------------------------------------------------------
  // The rewriting, as functions
  // ---------------------------------------------------------------------

  /** `$attributes[$attr] = array($value)` for each pair, in order. */
  function AssignAll(attrs: Attributes, pairs: seq<(string, string)>): Attributes
    decreases |pairs|
  {
    if |pairs| == 0 then attrs
    else AssignAll(attrs, pairs[..|pairs| - 1])[pairs[|pairs| - 1].0 := [pairs[|pairs| - 1].1]]
  }

  function ApplyUser(attrs: Attributes, m: UserMapping): Attributes
  {
    match m
    case Login(login) => attrs[Eppn := [login]]
    case Assign(pairs) => AssignAll(attrs, pairs)
  }

  /** One pass of the outer loop: a user mapping for the group takes
      priority over a role mapping. */
  function ApplyGroup(attrs: Attributes, rules: GroupRules, group: string): Attributes
  {
    if group in rules.users then ApplyUser(attrs, rules.users[group])
    else if group in rules.roles then attrs[Role := [rules.roles[group]]]
    else attrs
  }

  /** The outer loop over the group names, in order. */
  function ApplyGroups(attrs: Attributes, rules: GroupRules, groups: seq<string>): Attributes
    decreases |groups|
  {
    if |groups| == 0 then attrs
    else ApplyGroup(ApplyGroups(attrs, rules, groups[..|groups| - 1]), rules, groups[|groups| - 1])
  }

  /** The mapping step: it runs only when the group attribute is present. */
  function MapGroups(attrs: Attributes, rules: GroupRules): Attributes
  {
    match rules.groupAttribute
    case Some(k) => if k in attrs then ApplyGroups(attrs, rules, attrs[k]) else attrs
    case None => attrs
  }

  /** The two fallbacks: `eppn` from `eduPersonPrincipalName`, then `mail`
      from `eppn`; each fills in only a missing key. */
  function Fallbacks(attrs: Attributes): (r: Attributes)
    ensures Eppn in r <==> Eppn in attrs || PrincipalName in attrs
    ensures Eppn in r ==> r[Eppn] == if Eppn in attrs then attrs[Eppn] else attrs[PrincipalName]
    ensures Mail in r <==> Mail in attrs || Eppn in r
    ensures Mail in r ==> r[Mail] == if Mail in attrs then attrs[Mail] else r[Eppn]
    ensures forall k :: k != Eppn && k != Mail ==> (k in r <==> k in attrs)
    ensures forall k :: k != Eppn && k != Mail && k in attrs ==> r[k] == attrs[k]
  {
    var withEppn := if Eppn !in attrs && PrincipalName in attrs then attrs[Eppn := attrs[PrincipalName]] else attrs;
    if Mail !in withEppn && Eppn in withEppn then withEppn[Mail := withEppn[Eppn]] else withEppn
  }

  /** What filter_attributes returns. */
  function Rewrite(attrs: Attributes, rules: GroupRules): Attributes
  {
    Fallbacks(MapGroups(attrs, rules))
  }

  // ---------------------------------------------------------------------
  // The rewriting as the source runs it: nested loops updating a copy
  // ---------------------------------------------------------------------

  method FilterAttributes(attributes: Attributes, rules: GroupRules) returns (result: Attributes)
    ensures result == Rewrite(attributes, rules)
  {
    result := attributes;
    if rules.groupAttribute.Some? && rules.groupAttribute.value in result {
      // foreach iterates over a copy: writes inside the loop do not change it
      var groups := result[rules.groupAttribute.value];
      var i := 0;
      while i < |groups|
        invariant 0 <= i <= |groups|
        invariant result == ApplyGroups(attributes, rules, groups[..i])
      {
        var group := groups[i];
        ghost var before := result;
        if group in rules.users {
          match rules.users[group]
          case Assign(pairs) =>
            var j := 0;
            while j < |pairs|
              invariant 0 <= j <= |pairs|
              invariant result == AssignAll(before, pairs[..j])
            {
              result := result[pairs[j].0 := [pairs[j].1]];
              assert pairs[..j + 1][..j] == pairs[..j];
              j := j + 1;
            }
            assert pairs[..j] == pairs;
          case Login(login) =>
            result := result[Eppn := [login]];
        } else if group in rules.roles {
          result := result[Role := [rules.roles[group]]];
        }
        assert groups[..i + 1][..i] == groups[..i];
        i := i + 1;
      }
      assert groups[..i] == groups;
    }
    if Eppn !in result && PrincipalName in result {
      result := result[Eppn := result[PrincipalName]];
    }
    if Mail !in result && Eppn in result {
      result := result[Mail := result[Eppn]];
    }
  }

  // ---------------------------------------------------------------------
  // Last write wins: an independent, per-key account of the loop
  // ---------------------------------------------------------------------

  /** The value the last pair naming `key` assigns, if any pair names it. */
  function PairValue(pairs: seq<(string, string)>, key: string): Option<string>
    decreases |pairs|
  {
    if |pairs| == 0 then None
    else if pairs[|pairs| - 1].0 == key then Some(pairs[|pairs| - 1].1)
    else PairValue(pairs[..|pairs| - 1], key)
  }

  /** The single value a group's rule writes under `key`, if it writes it. */
  function GroupWrite(rules: GroupRules, group: string, key: string): Option<string>
  {
    if group in rules.users then
      match rules.users[group]
      case Login(login) => if key == Eppn then Some(login) else None
      case Assign(pairs) => PairValue(pairs, key)
    else if group in rules.roles then
      if key == Role then Some(rules.roles[group]) else None
    else None
  }

  /** The value the last group (in order) that writes `key` writes there. */
  function LastWrite(rules: GroupRules, groups: seq<string>, key: string): Option<string>
    decreases |groups|
  {
    if |groups| == 0 then None
    else match GroupWrite(rules, groups[|groups| - 1], key)
      case Some(v) => Some(v)
      case None => LastWrite(rules, groups[..|groups| - 1], key)
  }

  /** `r` holds under `key` what a run of writes leaves there when `w` is the
      last value written to `key` (None: nothing was written, so `key` is as
      it was in `attrs`). */
  ghost predicate Written(r: Attributes, attrs: Attributes, key: string, w: Option<string>)
  {
    match w
    case Some(v) => key in r && r[key] == [v]
    case None => (key in r <==> key in attrs) && (key in attrs ==> r[key] == attrs[key])
  }

  lemma {:induction false} AssignAllAt(attrs: Attributes, pairs: seq<(string, string)>, key: string)
    ensures Written(AssignAll(attrs, pairs), attrs, key, PairValue(pairs, key))
    decreases |pairs|
  {
    if |pairs| > 0 {
      AssignAllAt(attrs, pairs[..|pairs| - 1], key);
    }
  }

  lemma ApplyGroupAt(attrs: Attributes, rules: GroupRules, group: string, key: string)
    ensures Written(ApplyGroup(attrs, rules, group), attrs, key, GroupWrite(rules, group, key))
  {
    if group in rules.users && rules.users[group].Assign? {
      AssignAllAt(attrs, rules.users[group].pairs, key);
    }
  }

  /** Every key of the mapped attributes holds the one-element value of the
      last write to it, or its input value when no group wrote it. */
  lemma {:induction false} ApplyGroupsAt(attrs: Attributes, rules: GroupRules, groups: seq<string>, key: string)
    ensures Written(ApplyGroups(attrs, rules, groups), attrs, key, LastWrite(rules, groups, key))
    decreases |groups|
  {
    if |groups| > 0 {
      var init := groups[..|groups| - 1];
      ApplyGroupsAt(attrs, rules, init, key);
      ApplyGroupAt(ApplyGroups(attrs, rules, init), rules, groups[|groups| - 1], key);
    }
  }

  lemma {:induction false} LastWriteFrom(rules: GroupRules, groups: seq<string>, key: string, j: nat)
    requires j < |groups| && GroupWrite(rules, groups[j], key).Some?
    requires forall i :: j < i < |groups| ==> GroupWrite(rules, groups[i], key).None?
    ensures LastWrite(rules, groups, key) == GroupWrite(rules, groups[j], key)
    decreases |groups|
  {
    if j < |groups| - 1 {
      LastWriteFrom(rules, groups[..|groups| - 1], key, j);
    }
  }

  lemma {:induction false} LastWriteNone(rules: GroupRules, groups: seq<string>, key: string)
    requires forall i :: 0 <= i < |groups| ==> GroupWrite(rules, groups[i], key).None?
    ensures LastWrite(rules, groups, key).None?
    decreases |groups|
  {
    if |groups| > 0 {
      LastWriteNone(rules, groups[..|groups| - 1], key);
    }
  }

  lemma {:induction false} PairValueLast(pairs: seq<(string, string)>, i: nat)
    requires i < |pairs|
    requires forall j :: i < j < |pairs| ==> pairs[j].0 != pairs[i].0
    ensures PairValue(pairs, pairs[i].0) == Some(pairs[i].1)
    decreases |pairs|
  {
    if i < |pairs| - 1 {
      PairValueLast(pairs[..|pairs| - 1], i);
    }
  }

  // ---------------------------------------------------------------------
  // Properties of filter_attributes
  // ---------------------------------------------------------------------

  /** Without the group attribute the mapping loop writes nothing: only the
      `eppn`/`mail` fallbacks can change the attributes. */
  lemma GroupAttributeAbsent(attrs: Attributes, rules: GroupRules)
    requires rules.groupAttribute.None? || rules.groupAttribute.value !in attrs
    ensures Rewrite(attrs, rules) == Fallbacks(attrs)
    ensures forall k :: k != Eppn && k != Mail ==> (k in Rewrite(attrs, rules) <==> k in attrs)
    ensures forall k :: k != Eppn && k != Mail && k in attrs ==> Rewrite(attrs, rules)[k] == attrs[k]
  {
  }

  /** A group with both a user and a role mapping gets the user mapping, and
      `role` is left alone unless the user mapping itself assigns `role`. */
  lemma UserMappingWins(attrs: Attributes, rules: GroupRules, group: string)
    requires group in rules.users && group in rules.roles
    ensures ApplyGroup(attrs, rules, group) == ApplyUser(attrs, rules.users[group])
    ensures rules.users[group].Login? || PairValue(rules.users[group].pairs, Role).None? ==>
              (Role in ApplyGroup(attrs, rules, group) <==> Role in attrs) &&
              (Role in attrs ==> ApplyGroup(attrs, rules, group)[Role] == attrs[Role])
  {
    ApplyGroupAt(attrs, rules, group, Role);
  }

  /** A scalar user mapping sets `eppn` to the one-element list of the login
      and changes no other key. */
  lemma ScalarUserMapping(attrs: Attributes, rules: GroupRules, group: string)
    requires group in rules.users && rules.users[group].Login?
    ensures Eppn in ApplyGroup(attrs, rules, group)
    ensures ApplyGroup(attrs, rules, group)[Eppn] == [rules.users[group].login]
    ensures forall k :: k != Eppn ==> (k in ApplyGroup(attrs, rules, group) <==> k in attrs)
    ensures forall k :: k != Eppn && k in attrs ==> ApplyGroup(attrs, rules, group)[k] == attrs[k]
  {
  }

  /** An array user mapping asserts each of its pairs as a one-element value
      (the last pair wins when a key repeats) and touches no other key. */
  lemma {:induction false} ArrayUserMapping(attrs: Attributes, pairs: seq<(string, string)>)
    ensures forall i :: 0 <= i < |pairs| && (forall j :: i < j < |pairs| ==> pairs[j].0 != pairs[i].0) ==>
              pairs[i].0 in AssignAll(attrs, pairs) && AssignAll(attrs, pairs)[pairs[i].0] == [pairs[i].1]
    ensures forall k :: PairValue(pairs, k).None? ==>
              (k in AssignAll(attrs, pairs) <==> k in attrs) &&
              (k in attrs ==> AssignAll(attrs, pairs)[k] == attrs[k])
  {
    forall i | 0 <= i < |pairs| && (forall j :: i < j < |pairs| ==> pairs[j].0 != pairs[i].0)
      ensures pairs[i].0 in AssignAll(attrs, pairs) && AssignAll(attrs, pairs)[pairs[i].0] == [pairs[i].1]
    {
      PairValueLast(pairs, i);
      AssignAllAt(attrs, pairs, pairs[i].0);
    }
    forall k | PairValue(pairs, k).None?
      ensures (k in AssignAll(attrs, pairs) <==> k in attrs) &&
              (k in attrs ==> AssignAll(attrs, pairs)[k] == attrs[k])
    {
      AssignAllAt(attrs, pairs, k);
    }
  }

  /** When group `j` is the last group whose rule writes `role`, and it is a
      role mapping, filter_attributes returns `role` as exactly the one-element
      list of that group's role: no accumulation across groups. */
  lemma LastRoleWins(attrs: Attributes, rules: GroupRules, j: nat)
    requires rules.groupAttribute.Some? && rules.groupAttribute.value in attrs
    requires j < |attrs[rules.groupAttribute.value]|
    requires attrs[rules.groupAttribute.value][j] !in rules.users
    requires attrs[rules.groupAttribute.value][j] in rules.roles
    requires forall i :: j < i < |attrs[rules.groupAttribute.value]| ==>
               GroupWrite(rules, attrs[rules.groupAttribute.value][i], Role).None?
    ensures Role in Rewrite(attrs, rules)
    ensures Rewrite(attrs, rules)[Role] == [rules.roles[attrs[rules.groupAttribute.value][j]]]
  {
    var groups := attrs[rules.groupAttribute.value];
    LastWriteFrom(rules, groups, Role, j);
    ApplyGroupsAt(attrs, rules, groups, Role);
  }

  /** The `eppn` fallback: when mapping left no `eppn` and an
      `eduPersonPrincipalName` is present, `eppn` is that whole value list. */
  lemma PrincipalNameFallback(attrs: Attributes, rules: GroupRules)
    requires Eppn !in MapGroups(attrs, rules) && PrincipalName in MapGroups(attrs, rules)
    ensures Eppn in Rewrite(attrs, rules)
    ensures Rewrite(attrs, rules)[Eppn] == MapGroups(attrs, rules)[PrincipalName]
  {
  }

  /** The `mail` fallback: when mapping left no `mail`, `mail` equals the
      (possibly just derived) `eppn`. */
  lemma MailFallback(attrs: Attributes, rules: GroupRules)
    requires Mail !in MapGroups(attrs, rules)
    requires Eppn in MapGroups(attrs, rules) || PrincipalName in MapGroups(attrs, rules)
    ensures Mail in Rewrite(attrs, rules) && Eppn in Rewrite(attrs, rules)
    ensures Rewrite(attrs, rules)[Mail] == Rewrite(attrs, rules)[Eppn]
  {
  }

  /** A key some array user mapping may assign. */
  ghost predicate IsTarget(rules: GroupRules, key: string)
  {
    exists g :: g in rules.users && rules.users[g].Assign? && PairValue(rules.users[g].pairs, key).Some?
  }

  /** No key is ever removed, and every key other than `role`, `eppn`,
      `mail` and the user-mapping targets keeps its input value, or stays
      absent when the input lacks it. */
  lemma RewriteKeepsKeys(attrs: Attributes, rules: GroupRules)
    ensures attrs.Keys <= Rewrite(attrs, rules).Keys
    ensures forall k :: k in attrs && k != Role && k != Eppn && k != Mail && !IsTarget(rules, k) ==>
              Rewrite(attrs, rules)[k] == attrs[k]
    ensures forall k :: k !in attrs && k != Role && k != Eppn && k != Mail && !IsTarget(rules, k) ==>
              k !in Rewrite(attrs, rules)
  {
    var mapped := MapGroups(attrs, rules);
    forall k
      ensures k in attrs ==> k in mapped
      ensures k != Role && k != Eppn && !IsTarget(rules, k) ==>
                (k in mapped <==> k in attrs) && (k in attrs ==> mapped[k] == attrs[k])
    {
      if rules.groupAttribute.Some? && rules.groupAttribute.value in attrs {
        var groups := attrs[rules.groupAttribute.value];
        ApplyGroupsAt(attrs, rules, groups, k);
        if k != Role && k != Eppn && !IsTarget(rules, k) {
          forall i | 0 <= i < |groups| ensures GroupWrite(rules, groups[i], k).None? {
            if groups[i] in rules.users && rules.users[groups[i]].Assign? {
              assert PairValue(rules.users[groups[i]].pairs, k).None?;
            }
          }
          LastWriteNone(rules, groups, k);
        }
      }
    }
  }
}
