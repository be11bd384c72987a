/**
 * The option surface of Stanford_Auth: its default option table and
 * get_option, which passes the default through the site's
 * `stanford_auth_option` filter; the option values it supplies to the
 * WP-SAML-Auth plugin (filter_wpsa_option); and the login-string override
 * (filter_login_strings).
 */
module StanfordAuthOptions {
  import opened Php

  const GroupAttribute := "group_attribute"
  const GroupsToRoles := "groups_to_roles"
  const GroupsToUsers := "groups_to_users"

  /** The class's default options. */
  const Defaults: map<string, Value> := map[
    GroupAttribute := Str("eduPersonEntitlement"),
    GroupsToRoles := Arr([]),
    GroupsToUsers := Arr([])
  ]

  /** A `stanford_auth_option` filter: given the incoming value and the
      option name, it returns the value to use. */
  type OptionFilter = (Value, string) -> Value

  /** The filter of a site that registers none: the value passes through. */
  function Unfiltered(v: Value, name: string): Value
  {
    v
  }

  /** get_option: the filter receives the default for a name in the table
      and null for any other name, and has the last word. */
  function GetOption(filter: OptionFilter, name: string): (v: Value)
    ensures name in Defaults ==> v == filter(Defaults[name], name)
    ensures name !in Defaults ==> v == filter(Null, name)
  {
    filter(if name in Defaults && Isset(Defaults[name]) then Defaults[name] else Null, name)
  }

  /** The second declaration of get_option in the class, which hands the
      filter null for every name and so never consults the defaults. It
      agrees with the first declaration off the default table, and on a
      default exactly when the filter answers null as it answers the
      default. */
  function GetOptionRedeclared(filter: OptionFilter, name: string): (v: Value)
    ensures v == filter(Null, name)
    ensures name !in Defaults ==> v == GetOption(filter, name)
    ensures name in Defaults ==> (v == GetOption(filter, name) <==> filter(Null, name) == filter(Defaults[name], name))
  {
    filter(Null, name)
  }

  /** With no filter, get_option yields the defaults: `eduPersonEntitlement`
      as group attribute and empty group tables; any other name is null. */
  lemma UnfilteredDefaults(name: string)
    ensures GetOption(Unfiltered, GroupAttribute) == Str("eduPersonEntitlement")
    ensures GetOption(Unfiltered, GroupsToRoles) == Arr([])
    ensures GetOption(Unfiltered, GroupsToUsers) == Arr([])
    ensures name != GroupAttribute && name != GroupsToRoles && name != GroupsToUsers ==>
              GetOption(Unfiltered, name) == Null
  {
  }

  /** As-written counterexample: under the second declaration the group
      attribute is null where the defaults give `eduPersonEntitlement`. */
  lemma RedeclaredLosesDefaults()
    ensures GetOptionRedeclared(Unfiltered, GroupAttribute) == Null
    ensures GetOption(Unfiltered, GroupAttribute) == Str("eduPersonEntitlement")
  {
  }

  /** The settings Stanford_Auth imposes on WP-SAML-Auth. `incDir` is the
      directory of the class file; `siteDefaultRole` is WordPress's own
      `default_role` option. */
  function WpsaSettings(incDir: string, siteDefaultRole: Value): (settings: map<string, Value>)
    ensures forall n :: n in settings && n != "default_role" ==> Isset(settings[n])
    ensures "default_role" in settings && settings["default_role"] == siteDefaultRole
  {
    map[
      "connection_type" := Str("simplesamlphp"),
      "simplesamlphp_autoload" := Str(incDir + "/simplesamlphp/lib/_autoload.php"),
      "auth_source" := Str("default-sp"),
      "auto_provision" := Bool(true),
      "permit_wp_login" := Bool(false),
      "get_user_by" := Str("login"),
      "user_login_attribute" := Str("eppn"),
      "user_email_attribute" := Str("mail"),
      "display_name_attribute" := Str("displayName"),
      "first_name_attribute" := Str("givenName"),
      "last_name_attribute" := Str("sn"),
      "default_role" := siteDefaultRole
    ]
  }

  /** filter_wpsa_option: the imposed setting when there is one, otherwise
      the incoming value unchanged. Every setting but `default_role` is a
      fixed non-null value, so it always overrides; `default_role` overrides
      only when WordPress has a non-null value for it. */
  function FilterWpsaOption(incDir: string, siteDefaultRole: Value, value: Value, optionName: string): (r: Value)
    ensures optionName in WpsaSettings(incDir, siteDefaultRole) && optionName != "default_role" ==>
              r == WpsaSettings(incDir, siteDefaultRole)[optionName]
    ensures optionName == "default_role" ==> r == if Isset(siteDefaultRole) then siteDefaultRole else value
    ensures optionName !in WpsaSettings(incDir, siteDefaultRole) ==> r == value
  {
    var settings := WpsaSettings(incDir, siteDefaultRole);
    if optionName in settings && Isset(settings[optionName]) then settings[optionName] else value
  }

  /** The fixed settings, as WP-SAML-Auth sees them through the filter. */
  lemma WpsaFixedSettings(incDir: string, siteDefaultRole: Value, value: Value)
    ensures FilterWpsaOption(incDir, siteDefaultRole, value, "connection_type") == Str("simplesamlphp")
    ensures FilterWpsaOption(incDir, siteDefaultRole, value, "auto_provision") == Bool(true)
    ensures FilterWpsaOption(incDir, siteDefaultRole, value, "permit_wp_login") == Bool(false)
    ensures FilterWpsaOption(incDir, siteDefaultRole, value, "get_user_by") == Str("login")
  {
  }

  const LoginTitle := "Use Stanford Login:"

  /** filter_login_strings: sets `title` to the translated login prompt and
      leaves every other string as it was. `translate` stands for `__()`. */
  function FilterLoginStrings(strings: map<string, string>, translate: string -> string): (r: map<string, string>)
    ensures r.Keys == strings.Keys + {"title"}
    ensures r["title"] == translate(LoginTitle)
    ensures forall k :: k in strings && k != "title" ==> r[k] == strings[k]
  {
    strings["title" := translate(LoginTitle)]
  }
}
