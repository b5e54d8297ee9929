# acf-code-helper field groups, modelled in Dafny

acf-code-helper is a WordPress helper library. It lets a theme declare
Advanced Custom Fields (ACF) field groups in code through a chainable
builder, `ACF_Group`. The builder collects four things:

- location rules, held in `ACF_Group_Location` objects;
- raw field declarations;
- top-level attributes;
- the group id and title.

On `register()` it assembles the registration arguments. Every named
top-level field is then prepared:

- its key is derived from the group id (or the enclosing prefix) and its
  name;
- field defaults are merged underneath;
- conditional logic is normalised into groups of complete rules, with field
  references prefixed. An `outside` rule in a repeater points one level up;
- image and file fields default to returning an id;
- repeater sub-fields and flexible-content layouts are prepared recursively,
  each under its own prefix.

The model has five modules:

- `Values` (`values.dfy`): PHP values, string falsiness and `isset`.
- `Text` (`text.dfy`): three string operations that preparation relies on,
  namely the `P(?!.*P)` removal, `str_replace('__', '_', …)` and ASCII
  `strtolower`.
- `Fields` (`fields.dfy`): field declarations, conditional logic,
  `prepare_field` and `get_prepared_fields`. These are pure functions over
  datatypes, as in the source, which builds new arrays.
- `Locations` (`location.dfy`): the `ACF_Group_Location` class.
- `FieldGroup` (`group.dfy`): the `ACF_Group` class, whose methods update its
  fields in place, and `register`.

A sixth module, `Examples` (`examples.dfy`), replays the "page_fields" group
of the repository's usage file through the same builder chain.

The comment next to the "outside" rewrite says that the last occurrence of
the parent name is removed. The code uses the pattern `P(?!.*P)`, which
matches the leftmost occurrence after whose end the name never starts again.
The two agree when occurrences do not overlap (`Text.RemoveOutsideNonOverlapping`)
and differ when they do (`Text.RemoveOutsideOverlapping`). The model follows
the code.

## Model

| member | source | states |
|---|---|---|
| Locations.Location.constructor | class-acf-group-location.php:14 | a new location has no rules |
| Locations.Location.AddRule | class-acf-group-location.php:25-29 | exactly one `(param, value, operator)` triple is appended, the earlier rules are untouched, and the same object is returned for chaining |
| Locations.TwoRules | class-acf-group-location.php:25-40 | after two `add_rule` calls, `get_rules` returns both triples in insertion order, and the one given without an operator has "==" |
| FieldGroup.Group.Create | class-acf-group.php:63-78 | a new group has the given id and title, no fields, no attributes and no locations |
| FieldGroup.Group.AddLocationRule | class-acf-group.php:90-98 | on a group without locations, a fresh location holding only the new rule is created; otherwise the rule is appended to the first location; no other location, field or attribute changes |
| FieldGroup.Group.AddLocation | class-acf-group.php:108-112 | the location object is appended as a further alternative and nothing else changes |
| FieldGroup.Group.AddFields | class-acf-group.php:122-128 | the declarations are appended in order, unvalidated, after the existing ones |
| FieldGroup.Group.SetAttr | class-acf-group.php:139-149 | a scalar key is overwritten with the value (null by default); fields and locations are unchanged |
| FieldGroup.Group.SetAttrs | class-acf-group.php:140-143 | an array argument writes every entry, overriding earlier values of the same keys: the attributes become the old ones updated by the entries |
| FieldGroup.Layered | class-acf-group.php:157-189 | a non-fixed key is in the settings exactly when a default or an attribute has it; an attribute wins over the default; the four fixed keys never come from defaults or attributes |
| FieldGroup.Group.Register | class-acf-group.php:156-204 | the arguments carry the group id and title; the location list has one rule list per location, in order; the fields are the prepared named declarations; the other settings are the defaults overridden by the attributes |
| Fields.PrepareRule | class-acf-group.php:263-283 | the rule ends up complete: a missing operator becomes "==", a missing or null value becomes "1", and given values are kept. The reference gets the prefix. It is rewritten by the "outside" step only when the rule is marked outside and the parent name is truthy |
| Fields.PrepareGroup | class-acf-group.php:263-284 | one prepared rule per rule of the group, in order |
| Fields.PrepareGroups | class-acf-group.php:260-287 | one prepared group per group, in order |
| Fields.PrepareLogic | class-acf-group.php:251-290 | falsy logic is left as it is. Truthy logic becomes a list of groups: a flat rule list becomes exactly one group, the group and rule counts are kept, rule (i, j) is the prepared raw rule (i, j), and every rule is complete |
| Fields.UnderscoredPrefixKept | class-acf-group.php:243-245 | a prefix ending in "_" is never falsy, so a repeater's prefix is not replaced by the group id |
| Fields.LayoutPrefixKept | class-acf-group.php:321-324 | a layout prefix is never falsy, so it is used as given |
| Fields.PrepareField | class-acf-group.php:215-336 | name kept; key = effective prefix + name, whatever key was given; type defaults to "text"; every default key present, holding its default value unless the caller gave the key, caller values win and no other key appears; logic prepared; an image/file field without a return format gets "id" and a given one is kept; other types keep theirs; sub-fields and layouts rewritten only for repeater and flexible content, with their counts kept; the result is `Prepared` under the effective prefix, recursively |
| Fields.PrepareLayout | class-acf-group.php:319-329 | a layout keeps its key, its other entries and its number of sub-fields, and every sub-field is prepared under the lower-cased layout prefix |
| Fields.RepeaterSubFields | class-acf-group.php:303-313 | sub-field i of a repeater is sub-field i prepared with prefix `key + "_"` and the repeater's name as parent, so its key is the repeater key, "_" and its name |
| Fields.FlexibleContentLayouts | class-acf-group.php:316-332 | layout i keeps its key and entries; its sub-field j is prepared under `strtolower(key + "_" + layout key + "_")` with no parent, and is keyed by that prefix and its name |
| Fields.OutsideNeedsParent | class-acf-group.php:277 | without a parent name (top level, or inside a layout) the "outside" flag does not change the reference |
| Fields.OutsideEscapesOneLevel | class-acf-group.php:274-281 | inside a repeater named n under prefix `outer_`, an outside rule on x refers to `outer_x`, the key x has beside the repeater, provided n occurs once and no other underscores meet |
| Fields.PreparedFields | class-acf-group.php:345-355 | one output per declaration with a truthy name; every output is named, keyed `id_name`, and `Prepared` under `id_` |
| Fields.PreparedFieldsInOrder | class-acf-group.php:348-352 | the named declaration at index i is prepared, as a top-level field, at index "number of named declarations before i": unnamed ones are skipped and the order is kept |
| Text.FindOutsideMatch | class-acf-group.php:279 | a found index is a match of `P(?!.*P)`, and no index before it (from the start of the scan) is one; None means there is no match |
| Text.OccurrenceLeadsToMatch | class-acf-group.php:279 | every occurrence of the pattern is followed, at or after it, by a match of `P(?!.*P)` |
| Text.FindOutsideMatchIffOccurs | class-acf-group.php:279 | the regex matches exactly when the parent name occurs in the reference |
| Text.RemoveOutsideSpec | class-acf-group.php:278-279 | without an occurrence the reference is unchanged; otherwise exactly one occurrence is removed (the length drops by the name's length), namely the leftmost one after whose end the name never starts again |
| Text.RemoveUniqueOccurrence | class-acf-group.php:279 | a name that occurs exactly once is removed at that occurrence |
| Text.RemoveOutsideNonOverlapping | class-acf-group.php:278-279 | when occurrences do not overlap, the removed occurrence is the last one, as the comment promises |
| Text.RemoveOutsideOverlapping | class-acf-group.php:278-279 | with overlapping occurrences ("aba" in "ababa") the match is not the last occurrence: "ba" remains, not "ab" |
| Text.CollapseShape | class-acf-group.php:280 | collapsing never lengthens a string and keeps its first character |
| Text.CollapseWithoutDouble | class-acf-group.php:280 | a string without "__" is unchanged |
| Text.CollapseRemovesDoubles | class-acf-group.php:280 | a string without "___" has no "__" afterwards |
| Text.CollapseTriple | class-acf-group.php:280 | the replacement is a single pass: "___" becomes "__" |
| Text.CollapsePair | class-acf-group.php:280 | a leading "__" becomes "_" and the rest is collapsed on its own |
| Text.CollapseSingle | class-acf-group.php:280 | a leading character that does not start a pair is kept |
| Text.CollapseAppend | class-acf-group.php:280 | collapsing distributes over concatenation when the left part does not end in "_" |
| Text.CollapseAppendPair | class-acf-group.php:280 | the case of `CollapseAppend` where the left part starts with a pair |
| Text.CollapseAppendSingle | class-acf-group.php:280 | the case of `CollapseAppend` where the left part's first character stands alone |
| Text.RemoveOnlyName | class-acf-group.php:279 | removing the only occurrence of n from `outer_n_x` leaves `outer__x` |
| Text.EscapeOneLevel | class-acf-group.php:279-280 | removal followed by the collapse turns `outer_n_x` into `outer_x` when no other underscores meet |
| Text.CollapseJoin | class-acf-group.php:280 | `outer__x` collapses to `outer_x` when neither part holds "__" or touches the join with "_" |
| Text.Lower | class-acf-group.php:321 | same length; every character is lower-cased on its own (A-Z to a-z, others kept) |
| Text.LowerIsLower | class-acf-group.php:321 | the result holds no upper-case letter, and lower-casing twice is lower-casing once |
| Examples.CheckboxRuleLogic | examples.php:17-21 | the flat rule on "checkbox_field" under "page_fields_" becomes one group with the rule `page_fields_checkbox_field == "1"` |
| Examples.FeaturedMediaLogic | examples.php:13-22 | "featured_media"'s logic is prepared to that single group |
| Examples.RepeaterNameOnce | examples.php:24 | "repeater_field" occurs only once in the reference `page_fields_repeater_field_checkbox_field` |
| Examples.NamesWithoutDoubleUnderscore | examples.php:3-8 | neither "page_fields" nor "checkbox_field" holds "__" |
| Examples.OutsideRuleInRepeater | class-acf-group.php:274-281 | a rule marked outside, not present in the usage file but built from its names, on "checkbox_field" inside "repeater_field" of group "page_fields" refers to "page_fields_checkbox_field" |
| Examples.TailPrepared | examples.php:13-44 | the last two declarations are both prepared, in order |
| Examples.PageFieldsPrepared | examples.php:6-45 | all three declarations are prepared, in order |
| Examples.CheckboxPrepared | examples.php:7-12 | "checkbox_field" is keyed "page_fields_checkbox_field", keeps type "true_false" and gains no return format |
| Examples.RepeaterKey | examples.php:23-26 | "repeater_field" is keyed "page_fields_repeater_field" |
| Examples.RepeaterPrepared | examples.php:23-44 | the repeater keeps three sub-fields, and the second is keyed "page_fields_repeater_field_another_field" |
| Examples.PageFieldsSettings | examples.php:5 | the attribute "label_placement" = "left" overrides its default, and "style" keeps "default" |
| Examples.PageFieldsOutcome | examples.php:6-45 | the prepared fields of "page_fields" hold the key, type, logic and sub-field facts above |
| Examples.PageFields | examples.php:3-46 | the builder chain registers key "page_fields", title "Page Fields", one location with `post_type == page`, the layered settings and the prepared three fields |
| Examples.TwoLocationRules | class-acf-group.php:90-98 | two `add_location_rule` calls on a fresh group fill one location, so `register` sees a single AND-group with both rules |

## Left out

- The filter hooks `acf_group.defaults`, `acf_group.field.defaults` and `acf_group.arguments` are the identity. They call into code outside the library.
- `acf_add_local_field_group` is a host call. `FieldGroup.Group.Register` returns the arguments it would pass instead.
- acf-code-helper.php is not part of this model. It loads the classes and fires the `register_acf_groups` action in the WordPress lifecycle.
- `static $defaults` in `prepare_field` only memoises a constant, so the defaults are a constant here.
- Key order of the PHP arrays is not modelled. `array_merge` appends new keys after existing ones; the settings and field entries are maps here.
- `array_merge` renumbers integer keys. A numeric-string attribute or field key (for example "5") would be renumbered in PHP; the model keeps string keys as given.
- A missing `sub_fields` or `layouts` entry is the empty list. In PHP, iterating over the missing value only warns and yields an empty list.
- A missing nested `name` (or layout `key`) concatenates as "". This follows PHP's null-to-string conversion, which also raises a notice.
- Fields.PrepareRule: a rule's `field` is a string, its `operator` a string or absent, and `outside` a boolean. Other PHP types in these entries, and extra keys inside a rule, are not modelled.
- A truthy `conditional_logic` that is not an array (e.g. "1") is not representable. PHP would iterate over a scalar and warn.
- The flat-list test `isset($logic[0]['field'])` is modelled by the `Flat` constructor. The model does not represent a flat list whose first rule lacks `field`, which PHP would treat as a list of groups.
- The parent name is taken literally in the `P(?!.*P)` pattern. The model assumes it holds no regular-expression metacharacters or `~`, and that the reference holds no newline (where `.` would stop matching).
- `strtolower` is modelled on ASCII letters only.
- `switch ($field['type'])` uses PHP's loose comparison. For the string types modelled here it agrees with string equality.
- The translation function `__()` in the usage file is the identity.
- Field declarations: the entries "name", "key", "type", "conditional_logic", "return_format", "sub_fields" and "layouts" have components of their own. A declaration whose `extras` also holds one of those keys has no PHP counterpart, since a PHP array holds one value per key. The model does not exclude such declarations; their stray `extras` entries are passed through unchanged.
- Falsy conditional logic: every falsy `conditional_logic` (0, false, null, "" or "0") is the single value `Off` of the `Logic` datatype. PHP leaves the exact falsy value in place (class-acf-group.php:251), and the model does not tell these values apart.
- Fields.PrepareField: an explicitly null `type` or `return_format` is not representable. A given type is a string, and an absent return format is `None`.
