# Stanford Auth for WordPress — attribute rewriting and options, modelled in Dafny

Stanford Auth is a WordPress plugin that sits on top of the WP-SAML-Auth
plugin. When a user signs in through Stanford's SAML identity provider (IdP),
WP-SAML-Auth hands the plugin the attributes the IdP asserted, as a map from
attribute name to a list of string values. The plugin's controller class
`Stanford_Auth` then does the following:

- it rewrites those attributes (`filter_attributes`). Each group named in
  the group attribute (by default `eduPersonEntitlement`) may be mapped to a
  user or to a role:
  - a user mapping is either a login name, written to `eppn`, or a list of
    attribute => value pairs;
  - a role mapping is written to `role`.

  Then `eppn` is filled in from `eduPersonPrincipalName` and `mail` from
  `eppn`;
- it passes the first `role` value into a new user's insert arguments
  (`filter_insert_user`) and onto an authenticated user (`action_user_authn`);
- it reads its own options through `get_option`, which passes a default table
  through the site's `stanford_auth_option` filter;
- it imposes a fixed set of settings on WP-SAML-Auth (`filter_wpsa_option`)
  and overrides the login title (`filter_login_strings`).

A site configures the plugin with its own filter. The example one,
`my_stanford_auth_options`, answers from a constant table.

The project has these modules:

- `Php` (php.dfy): the part of PHP's value model that the code relies on.
  This covers null, booleans, strings and ordered arrays, plus `isset`,
  indexing, array-key conversion, string conversion and `empty`.
- `AttributeFilter` (attribute_filter.dfy): `filter_attributes`.
  - `FilterAttributes` is a method with the source's nested loops. It is
    proved equal to the function `Rewrite`.
  - The properties are lemmas about `Rewrite`.
  - One of them is a per-key, last-write-wins account of the loop
    (`ApplyGroupsAt`).
- `UserProvisioning` (user_provisioning.dfy): `filter_insert_user`, and
  `action_user_authn` over a `WpUser` class whose role the method updates in
  place.
- `StanfordAuthOptions` (stanford_auth_options.dfy): the default options,
  `get_option`, `filter_wpsa_option` and `filter_login_strings`.
- `SiteConfig` (site_config.dfy): `my_stanford_auth_options` and its table.
- `Deployment` (deployment.dfy): `get_option` composed with the site's
  filter, and what `filter_attributes` then does.

`filter_attributes` calls `get_option` for three options. The model reads
them once, in `Deployment.RulesFrom`, into a `GroupRules` record and passes
that record in. The source reads `group_attribute` twice (lines 169 and
173). The model assumes the filter gives the same answer each time it is
called, so reading once gives the same values. A PHP filter callback could
keep state and answer differently; that case is not modelled.

The example site configuration supplies `attribute_map` but none of the
options `filter_attributes` reads:

- the two group tables fall back to the empty defaults;
- the group attribute falls back to `eduPersonEntitlement`;
- so the mapping loop never writes anything (`Deployment.SiteMapsNoGroups`).

The directives in `attribute_map` (`role:…`, `user:…`) are never read by
this code.

Code defects that the model does not reproduce:

- `get_option` is declared twice in the class, at lines 51 and 114 of
  inc/class-stanford-auth.php. PHP rejects the redeclaration. The model
  follows the first declaration; the second is recorded under Findings.
- Line 153 ends its statement with `,` instead of `;`, which is a syntax
  error. The model gives `filter_login_strings` the evident meaning.
- The hook registrations at lines 83-98 pass `this` instead of `$this`. Hook
  registration is not part of this model.
- Lines 95-98 register `action_user_authn` with `add_action`'s default of one
  accepted argument. WordPress would then pass only the user, and the
  two-parameter method would fail for lack of the attributes. The model gives
  `ActionUserAuthn` both arguments, as the method declares them.

## Model

| member | source | states |
|---|---|---|
| `AttributeFilter.FilterAttributes` | inc/class-stanford-auth.php:167-197 | The nested loops return exactly `Rewrite(attributes, rules)`: the group mapping walk followed by the `eppn`/`mail` fallbacks |
| `AttributeFilter.UsersOf` | inc/class-stanford-auth.php:174-176 | A group has a user mapping exactly when `isset($user_mapping[$group])`; the entry is a pair list when it is an array, a login otherwise |
| `AttributeFilter.RolesOf` | inc/class-stanford-auth.php:182-183 | A group has a role mapping exactly when `isset($role_mapping[$group])`, and the role is that entry |
| `AttributeFilter.Fallbacks` | inc/class-stanford-auth.php:188-194 | `eppn` is kept if present, else copied whole from `eduPersonPrincipalName`; `mail` is kept if present, else equals the resulting `eppn`; every other key is unchanged |
| `AttributeFilter.AssignAllAt` | inc/class-stanford-auth.php:176-178 | After the pair loop, each key holds `[v]` for the last pair naming it, or its old value when no pair names it |
| `AttributeFilter.ApplyGroupAt` | inc/class-stanford-auth.php:174-184 | One group's pass writes only the keys its rule writes (user mapping first, else role), each as a one-element list |
| `AttributeFilter.ApplyGroupsAt` | inc/class-stanford-auth.php:173-185 | Last write wins: after the walk every key holds the one-element value of the last group that wrote it, or its input value if none did |
| `AttributeFilter.LastWriteFrom` | inc/class-stanford-auth.php:173-185 | The last group in order that writes a key decides that key's final value |
| `AttributeFilter.LastWriteNone` | inc/class-stanford-auth.php:173-185 | A key no group's rule writes is not written by the walk |
| `AttributeFilter.PairValueLast` | inc/class-stanford-auth.php:176-177 | A pair whose key no later pair repeats is the one that decides that key |
| `AttributeFilter.GroupAttributeAbsent` | inc/class-stanford-auth.php:169 | Without the group attribute the mapping writes nothing; only `eppn` and `mail` can differ from the input |
| `AttributeFilter.UserMappingWins` | inc/class-stanford-auth.php:174-184 | For a group in both tables the user mapping is applied, and `role` is untouched unless the user mapping itself assigns `role` |
| `AttributeFilter.ScalarUserMapping` | inc/class-stanford-auth.php:179-181 | A scalar user mapping sets `eppn` to `[login]` and changes no other key |
| `AttributeFilter.ArrayUserMapping` | inc/class-stanford-auth.php:175-178 | An array user mapping sets `attr` to `[value]` for every pair and leaves every key it does not name as it was |
| `AttributeFilter.LastRoleWins` | inc/class-stanford-auth.php:182-184 | When the last group that writes `role` is a role match, the result's `role` is exactly `[role_mapping[group]]`, with no accumulation |
| `AttributeFilter.PrincipalNameFallback` | inc/class-stanford-auth.php:188-190 | With no `eppn` after mapping and an `eduPersonPrincipalName`, the result's `eppn` is that whole value list |
| `AttributeFilter.MailFallback` | inc/class-stanford-auth.php:192-194 | With no `mail` after mapping and an `eppn` (possibly just derived), the result's `mail` equals its `eppn` |
| `AttributeFilter.RewriteKeepsKeys` | inc/class-stanford-auth.php:167-197 | No key is removed; keys other than `role`, `eppn`, `mail` and user-mapping targets keep their input values, and none of them is added |
| `UserProvisioning.FilterInsertUser` | inc/class-stanford-auth.php:199-204 | `role` is set to `attributes['role'][0]` exactly when that value exists and is not PHP-empty (`""` or `"0"`); every other argument is unchanged, so `role` ends PHP-empty only if the caller passed it so |
| `UserProvisioning.WpUser.SetRole` | inc/class-stanford-auth.php:211 | The user ends with exactly the one given role |
| `UserProvisioning.WpUser.Update` | inc/class-stanford-auth.php:212 | One update call, taken to write back the current roles; the roles themselves are unchanged and one call is counted |
| `UserProvisioning.ActionUserAuthn` | inc/class-stanford-auth.php:206-214 | With a non-empty `role[0]` the user gets exactly that role and is saved once; otherwise the user is unchanged |
| `UserProvisioning.InsertedWithMappedRole` | inc/class-stanford-auth.php:199-204 | After rewriting, a new user is inserted with the role of the last role-writing group when that role is non-empty |
| `UserProvisioning.InsertedUnchangedWithoutRole` | inc/class-stanford-auth.php:200 | With no `role` asserted and no group writing one, the insert arguments pass through unchanged |
| `StanfordAuthOptions.GetOption` | inc/class-stanford-auth.php:51-54 | The filter receives the default for a name in the default table and null for any other name, and its answer is the result |
| `StanfordAuthOptions.GetOptionRedeclared` | inc/class-stanford-auth.php:114-116 | The second declaration hands the filter null for every name, so it agrees with the first on every name outside the default table, and on a name in the table exactly when the filter answers null as it answers the default |
| `StanfordAuthOptions.UnfilteredDefaults` | inc/class-stanford-auth.php:25-29 | With a pass-through filter the group attribute is `eduPersonEntitlement`, both group tables are empty, and other names are null |
| `StanfordAuthOptions.RedeclaredLosesDefaults` | inc/class-stanford-auth.php:114-116 | The second `get_option` gives null for `group_attribute` where the first gives `eduPersonEntitlement` |
| `StanfordAuthOptions.WpsaSettings` | inc/class-stanford-auth.php:126-145 | Every imposed setting except `default_role` is a fixed non-null value; `default_role` is WordPress's own `get_option('default_role')` |
| `StanfordAuthOptions.FilterWpsaOption` | inc/class-stanford-auth.php:125-150 | A name in the settings table yields its fixed entry (`default_role` unless WordPress's `get_option('default_role')` is null); any other name yields the incoming value unchanged |
| `StanfordAuthOptions.WpsaFixedSettings` | inc/class-stanford-auth.php:130-135 | The connection type, auto-provisioning, WordPress login and lookup field settings seen through the filter |
| `StanfordAuthOptions.FilterLoginStrings` | inc/class-stanford-auth.php:152-155 | Only `title` is set, to the translated prompt; all other strings are unchanged |
| `SiteConfig.Table` | example-stanford-auth-config/example-stanford-auth-config.php:14-28 | Every entry of the table is set (non-null); the certificate and key paths lie under the plugin directory's `private/` |
| `SiteConfig.MyStanfordAuthOptions` | example-stanford-auth-config/example-stanford-auth-config.php:13-31 | A name in the table yields `options[name]`; any other name yields `default_value` unchanged |
| `SiteConfig.TableNames` | example-stanford-auth-config/example-stanford-auth-config.php:14-28 | The table holds exactly six names; `groups_to_users`, `groups_to_roles` and `group_attribute` are not among them |
| `SiteConfig.LoginAndIdp` | example-stanford-auth-config/example-stanford-auth-config.php:26-27 | `permit_wp_login` is false and `idp` is `itlab` |
| `SiteConfig.DirectivePrefixes` | example-stanford-auth-config/example-stanford-auth-config.php:16-21 | Every directive in the `entitlement` map starts with `role:` or `user:` |
| `SiteConfig.AttributeMapDirectives` | example-stanford-auth-config/example-stanford-auth-config.php:15-22 | `attribute_map` maps `entitlement` to four group => directive strings, each prefixed `role:` or `user:` |
| `Deployment.RulesFrom` | inc/class-stanford-auth.php:169-171 | The group attribute is the array key of `get_option('group_attribute')`; a group has a user or role mapping exactly when `isset` holds of its entry in the corresponding option; the user mapping is that entry read as a pair list when it is an array and as a login otherwise, and the role is that entry as a string |
| `Deployment.UnfilteredRules` | inc/class-stanford-auth.php:169-171 | Without a filter, `filter_attributes` reads `eduPersonEntitlement` and two empty group tables |
| `Deployment.SiteOptionsResolve` | example-stanford-auth-config/example-stanford-auth-config.php:30 | Through the site filter the three group options fall back to the class defaults `eduPersonEntitlement`, `[]` and `[]` |
| `Deployment.NoRulesNoWrites` | inc/class-stanford-auth.php:173-185 | With empty group tables the walk over any groups leaves the attributes unchanged |
| `Deployment.SiteMapsNoGroups` | example-stanford-auth-config/example-stanford-auth-config.php:13-31 | Under the example configuration `filter_attributes` only applies the `eppn`/`mail` fallbacks, whatever groups are asserted |
| `Deployment.WpsaNamesMatchFilter` | inc/class-stanford-auth.php:136-137 | WP-SAML-Auth's login and e-mail attributes are `eppn` and `mail`, the keys `filter_attributes` writes |

## Left out

- The singleton (`get_instance`) and `action_init` are not modelled. This
  covers hook registration, `current_user_can`, `class_exists`, `has_filter`
  and the admin-notice HTML. They are host plumbing.
- stanford-auth.php only loads and starts the class, so it is not part of
  this model.
- `apply_filters`/`add_filter` dispatch is not modelled. The
  `stanford_auth_option` filter is a function parameter (`OptionFilter`).
- `__()` translation is a function parameter of `FilterLoginStrings`.
  WordPress's own `get_option('default_role')` is a parameter of
  `FilterWpsaOption`. The path `dirname(__FILE__)` and the result of
  `plugin_dir_path` are string parameters.
- `wp_update_user` and `WP_User::set_role` are represented by the two
  methods of `WpUser`. The model records the roles and a count of update
  calls, not WordPress's user store.
- `UserProvisioning.WpUser.Update`: the split between the two calls follows
  the comment beside the `wp_update_user` call (line 212), which says the
  call makes the new role visible. In WordPress itself `WP_User::set_role`
  already persists the role, and `wp_update_user` re-saves only the user's
  data fields, which carry no role. The end state of `ActionUserAuthn` is the
  same either way.
- The unused `$provider` argument of `filter_attributes` is dropped.
- The SAML engine, certificates and keys are external configuration and are
  not modelled.
- The model has no directive parsing (`role:`/`user:` prefixes), no
  accumulation of several roles, no deny-unmapped-users gate, no OID alias
  table, no profile-field sync and no `default_user`. The modelled code does
  none of these.
- `AttributeFilter.UsersOf`: indexing a string with a group name is not
  modelled. When the `groups_to_users` option is a string, PHP's string
  offsets could yield an entry; the model treats it as having no entries.
- `AttributeFilter.RolesOf`: same as `UsersOf`, for a string-valued
  `groups_to_roles` option.
- `AttributeFilter.UserMappingOf`: non-string values in the group tables are
  converted with PHP's string conversion. PHP stores them as they are, so an
  array-valued role would be stored as an array, not as `"Array"`.
- `Deployment.RulesFrom`: an array-valued `group_attribute` is treated as
  absent. PHP raises an illegal-offset error for it instead.
- `Php.Value` has no integer or float case. An option value that a site
  filter returns as a number (`'group_attribute' => 0`, a numeric role or
  login) cannot be expressed in the model.
- PHP arrays that repeat a key are represented as entry lists where the last
  entry wins. This matches PHP's literal semantics, but key order within the
  array is not modelled.

## Findings

| source | as written | input that shows it | evidently intended | confidence | as-written member | corrected member |
|---|---|---|---|---|---|---|
| inc/class-stanford-auth.php:114-116 | A second `get_option` gives the filter `null` for every option and never consults the defaults table (PHP also refuses the redeclaration itself) | option `group_attribute` with no overriding filter: the result is `null`, not `eduPersonEntitlement` | The first declaration (lines 51-54): the default, passed through the filter | high; not executed | `StanfordAuthOptions.RedeclaredLosesDefaults` | `StanfordAuthOptions.UnfilteredDefaults` |
