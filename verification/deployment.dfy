/**
 * The plugin deployed with the example site configuration: get_option
 * composed with my_stanford_auth_options as its `stanford_auth_option`
 * filter, and filter_attributes reading its three options through it.
 */
module Deployment {
  import opened Php
  import opened StanfordAuthOptions
  import opened SiteConfig
  import opened AttributeFilter

  /** The site's filter, as registered with `stanford_auth_option`. */
  function SiteFilter(pluginDir: string): OptionFilter
  {
    (v, name) => MyStanfordAuthOptions(pluginDir, v, name)
  }

  /** The three options filter_attributes reads, through get_option. */
  function RulesFrom(filter: OptionFilter): (rules: GroupRules)
    ensures rules.groupAttribute == KeyOf(GetOption(filter, GroupAttribute))
    ensures forall g :: g in rules.users <==> Isset(Index(GetOption(filter, GroupsToUsers), g))
    ensures forall g :: g in rules.users ==> rules.users[g] == UserMappingOf(Index(GetOption(filter, GroupsToUsers), g))
    ensures forall g :: g in rules.roles <==> Isset(Index(GetOption(filter, GroupsToRoles), g))
    ensures forall g :: g in rules.roles ==> rules.roles[g] == ToStr(Index(GetOption(filter, GroupsToRoles), g))
  {
    GroupRules(
      KeyOf(GetOption(filter, GroupAttribute)),
      UsersOf(GetOption(filter, GroupsToUsers)),
      RolesOf(GetOption(filter, GroupsToRoles)))
  }

  /** Without a filter the group attribute is `eduPersonEntitlement` and both
      group tables are empty. */
  lemma UnfilteredRules()
    ensures RulesFrom(Unfiltered) == GroupRules(Some("eduPersonEntitlement"), map[], map[])
  {
  }

  /** The site's table names none of the three group options, so they fall
      back to the class defaults. */
  lemma SiteOptionsResolve(pluginDir: string)
    ensures GetOption(SiteFilter(pluginDir), GroupAttribute) == Str("eduPersonEntitlement")
    ensures GetOption(SiteFilter(pluginDir), GroupsToUsers) == Arr([])
    ensures GetOption(SiteFilter(pluginDir), GroupsToRoles) == Arr([])
    ensures RulesFrom(SiteFilter(pluginDir)) == GroupRules(Some("eduPersonEntitlement"), map[], map[])
  {
  }

  /** With no group rules, walking any list of groups changes nothing. */
  lemma {:induction false} NoRulesNoWrites(attrs: Attributes, rules: GroupRules, groups: seq<string>)
    requires rules.users == map[] && rules.roles == map[]
    ensures ApplyGroups(attrs, rules, groups) == attrs
    decreases |groups|
  {
    if |groups| > 0 {
      NoRulesNoWrites(attrs, rules, groups[..|groups| - 1]);
    }
  }

  /** With the example site configuration the mapping loop does nothing,
      whatever groups the IdP asserts: the site's `attribute_map` is never
      read, and filter_attributes only applies the `eppn`/`mail` fallbacks. */
  lemma SiteMapsNoGroups(pluginDir: string, attrs: Attributes)
    ensures Rewrite(attrs, RulesFrom(SiteFilter(pluginDir))) == Fallbacks(attrs)
  {
    var rules := RulesFrom(SiteFilter(pluginDir));
    SiteOptionsResolve(pluginDir);
    if rules.groupAttribute.value in attrs {
      NoRulesNoWrites(attrs, rules, attrs[rules.groupAttribute.value]);
    }
  }

  /** The login and e-mail attributes WP-SAML-Auth is told to use are the
      keys filter_attributes writes and fills in. */
  lemma WpsaNamesMatchFilter(incDir: string, siteDefaultRole: Value, value: Value)
    ensures FilterWpsaOption(incDir, siteDefaultRole, value, "user_login_attribute") == Str(Eppn)
    ensures FilterWpsaOption(incDir, siteDefaultRole, value, "user_email_attribute") == Str(Mail)
  {
  }
}
