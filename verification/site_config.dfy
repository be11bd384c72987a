/**
 * The example site configuration: my_stanford_auth_options, the
 * `stanford_auth_option` filter a site registers to configure the plugin.
 * It answers from a constant table and passes every other option through.
 */
module SiteConfig {
  import opened Php

  const AttributeMap := "attribute_map"

  /** The `entitlement` part of the site's `attribute_map`: group =>
      directive, in the order the table lists them. */
  const EntitlementDirectives: seq<(string, Value)> := [
    ("itlab:staff", Str("role:administrator")),
    ("test:staff", Str("role:author")),
    ("test:faculty", Str("user:general-user")),
    ("test:student", Str("role:contributor"))
  ]

  /** The site's option table; `pluginDir` is what plugin_dir_path gives for
      the configuration plugin (it ends in a slash). */
  function Table(pluginDir: string): (options: map<string, Value>)
    ensures forall n :: n in options ==> Isset(options[n])
    ensures "sp_cert_file" in options && options["sp_cert_file"] == Str(pluginDir + "private/sp.crt")
    ensures "sp_key_file" in options && options["sp_key_file"] == Str(pluginDir + "private/sp.key")
  {
    map[
      AttributeMap := Arr([("entitlement", Arr(EntitlementDirectives))]),
      "entityId" := Str("http://wp-test.itlab.stanford.edu"),
      "sp_cert_file" := Str(pluginDir + "private/sp.crt"),
      "sp_key_file" := Str(pluginDir + "private/sp.key"),
      "permit_wp_login" := Bool(false),
      "idp" := Str("itlab")
    ]
  }

  /** my_stanford_auth_options: the table's entry when it is set, else the
      incoming default. Every entry of the table is set, so a name in the
      table always answers from it. */
  function MyStanfordAuthOptions(pluginDir: string, defaultValue: Value, optionName: string): (r: Value)
    ensures optionName in Table(pluginDir) ==> r == Table(pluginDir)[optionName]
    ensures optionName !in Table(pluginDir) ==> r == defaultValue
  {
    var options := Table(pluginDir);
    if optionName in options && Isset(options[optionName]) then options[optionName] else defaultValue
  }

  /** The names the table answers for; the group options of the plugin are
      not among them. */
  lemma TableNames(pluginDir: string)
    ensures Table(pluginDir).Keys ==
              {AttributeMap, "entityId", "sp_cert_file", "sp_key_file", "permit_wp_login", "idp"}
    ensures "groups_to_users" !in Table(pluginDir)
    ensures "groups_to_roles" !in Table(pluginDir)
    ensures "group_attribute" !in Table(pluginDir)
  {
  }

  /** `permit_wp_login` is false and the identity provider is `itlab`. */
  lemma LoginAndIdp(pluginDir: string, defaultValue: Value)
    ensures MyStanfordAuthOptions(pluginDir, defaultValue, "permit_wp_login") == Bool(false)
    ensures MyStanfordAuthOptions(pluginDir, defaultValue, "idp") == Str("itlab")
  {
  }

  /** Every directive is a string that starts with `role:` or `user:`. */
  lemma DirectivePrefixes(g: string)
    requires Isset(Lookup(EntitlementDirectives, g))
    ensures Lookup(EntitlementDirectives, g).Str?
    ensures "role:" <= Lookup(EntitlementDirectives, g).s || "user:" <= Lookup(EntitlementDirectives, g).s
  {
  }

  /** `attribute_map` maps `entitlement` to four group => directive strings,
      and every directive it holds starts with `role:` or `user:`. */
  lemma AttributeMapDirectives(pluginDir: string, defaultValue: Value)
    ensures var entitlement := Index(MyStanfordAuthOptions(pluginDir, defaultValue, AttributeMap), "entitlement");
      && Index(entitlement, "itlab:staff") == Str("role:administrator")
      && Index(entitlement, "test:staff") == Str("role:author")
      && Index(entitlement, "test:faculty") == Str("user:general-user")
      && Index(entitlement, "test:student") == Str("role:contributor")
      && entitlement.Arr? && |entitlement.entries| == 4
      && forall g :: Isset(Index(entitlement, g)) ==>
           Index(entitlement, g).Str? &&
           ("role:" <= Index(entitlement, g).s || "user:" <= Index(entitlement, g).s)
  {
    var entitlement := Index(MyStanfordAuthOptions(pluginDir, defaultValue, AttributeMap), "entitlement");
    var es := EntitlementDirectives;
    assert entitlement == Arr(es);
    // the two earliest entries lie deeper than the default unfolding of Lookup
    assert es[..3][..2] == es[..2] && es[..2][..1] == es[..1];
    assert Lookup(es, "test:staff") == Lookup(es[..3], "test:staff") == Lookup(es[..2], "test:staff");
    assert Lookup(es, "itlab:staff") == Lookup(es[..3], "itlab:staff") == Lookup(es[..2], "itlab:staff")
        == Lookup(es[..1], "itlab:staff");
    forall g | Isset(Index(entitlement, g))
      ensures Index(entitlement, g).Str?
      ensures "role:" <= Index(entitlement, g).s || "user:" <= Index(entitlement, g).s
    {
      assert Index(entitlement, g) == Lookup(es, g);
      DirectivePrefixes(g);
    }
  }
}
