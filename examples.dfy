/**
 * The field group that the repository's usage file declares ("page_fields"),
 * built through the same chain of builder calls, and what preparation makes
 * of it.
 */
module Examples {
  import opened Values
  import opened Text
  import opened Fields
  import opened Locations
  import opened FieldGroup

  /** A declaration with only a name, a type and pass-through extras. */
  function Simple(name: string, fieldType: string, extras: map<string, Value>): Field {
    Field(Some(name), None, Some(fieldType), None, None, [], [], extras)
  }

  const Checkbox: Field :=
    Simple("checkbox_field", "true_false", map["label" := Str("Check me"), "message" := Str("Check me")])

  const FeaturedMedia: Field :=
    Field(Some("featured_media"), None, Some("url"),
      Some(Flat([Rule("checkbox_field", None, None, false)])),
      None, [], [], map["label" := Str("Featured Media")])

  const Repeater: Field :=
    Field(Some("repeater_field"), None, Some("repeater"), None, None,
      [Simple("text_sub_field", "text", map["label" := Str("Text Sub Field")]),
       Simple("another_field", "text", map["label" := Str("Another Field")]),
       Simple("test_field", "text", map["label" := Str("Test Field")])],
      [], map["label" := Str("Repeater field")])

  /** A flat list holding the one rule on "checkbox_field" becomes one group with a prefixed, completed rule. */
  lemma CheckboxRuleLogic()
    ensures PrepareLogic(Flat([Rule("checkbox_field", None, None, false)]), "page_fields_", "") ==
      Groups([[Rule("page_fields_checkbox_field", Some("=="), Some(Str("1")), false)]])
  {
    var rule := Rule("checkbox_field", None, None, false);
    var l := Flat([rule]);
    assert Truthy(l) && RawGroups(l) == [[rule]];
    var o := PrepareLogic(l, "page_fields_", "");
    assert |o.groups| == 1 && |o.groups[0]| == 1;
    assert o.groups[0][0] == PrepareRule(rule, "page_fields_", "");
    assert "page_fields_" + "checkbox_field" == "page_fields_checkbox_field";
    assert o.groups[0][0] == Rule("page_fields_checkbox_field", Some("=="), Some(Str("1")), false);
    assert o.groups[0] == [o.groups[0][0]];
  }

  /** The flat rule list of "featured_media" becomes one group with a prefixed, completed rule. */
  lemma FeaturedMediaLogic()
    ensures PrepareField("page_fields", FeaturedMedia, "", "").logic ==
      Some(Groups([[Rule("page_fields_checkbox_field", Some("=="), Some(Str("1")), false)]]))
  {
    assert LogicOrDefault(FeaturedMedia.logic) == Flat([Rule("checkbox_field", None, None, false)]);
    assert EffectivePrefix("page_fields", "") == "page_fields_";
    CheckboxRuleLogic();
  }

  /** "repeater_field" occurs only once in the rewritten reference. */
  lemma RepeaterNameOnce()
    ensures forall j: nat :: OccursAt("page_fields_repeater_field_checkbox_field", "repeater_field", j) ==> j == 12
  {
    var s := "page_fields_repeater_field_checkbox_field";
    forall j: nat | OccursAt(s, "repeater_field", j) ensures j == 12 {
      assert s[j..j + 14][0] == 'r' && s[j..j + 14][1] == 'e';
      assert s[j] == 'r' && s[j + 1] == 'e';
    }
  }

  /** Neither "page_fields" nor "checkbox_field" holds a double underscore. */
  lemma NamesWithoutDoubleUnderscore()
    ensures NoDoubleUnderscore("page_fields") && NoDoubleUnderscore("checkbox_field")
  {
    assert '_' !in "page_fields"[..4] && '_' !in "page_fields"[5..];
    assert '_' !in "checkbox_field"[..8] && '_' !in "checkbox_field"[9..];
  }

  /**
   * A rule marked `outside` on a sub-field of "repeater_field" refers to the
   * top-level "checkbox_field" beside the repeater. The usage file has no
   * such rule; this one is built from its group, repeater and field names.
   */
  lemma OutsideRuleInRepeater()
    ensures PrepareRule(Rule("checkbox_field", None, None, true), "page_fields_repeater_field_", "repeater_field").field
      == "page_fields_checkbox_field"
  {
    var outer, n, x := "page_fields", "repeater_field", "checkbox_field";
    assert outer + "_" + n + "_" == "page_fields_repeater_field_";
    assert outer + "_" + x == "page_fields_checkbox_field";
    RepeaterNameOnce();
    assert outer + "_" + n + "_" + x == "page_fields_repeater_field_checkbox_field";
    assert forall j: nat :: OccursAt(outer + "_" + n + "_" + x, n, j) ==> j == |outer| + 1;
    NamesWithoutDoubleUnderscore();
    assert outer[|outer| - 1] != '_' && x[0] != '_' && !Falsy(n);
    OutsideEscapesOneLevel(outer, n, x, None, None);
  }

  /** The last two declarations are named, so both are prepared, in order. */
  lemma TailPrepared()
    ensures PreparedFields("page_fields", [FeaturedMedia, Repeater]) ==
      [PrepareField("page_fields", FeaturedMedia, "", ""), PrepareField("page_fields", Repeater, "", "")]
  {
    assert Named(FeaturedMedia) && Named(Repeater);
    assert [FeaturedMedia, Repeater][1..] == [Repeater] && [Repeater][1..] == [];
  }

  /** The three declarations are all named, so each is prepared, in order. */
  lemma PageFieldsPrepared()
    ensures PreparedFields("page_fields", [Checkbox, FeaturedMedia, Repeater]) ==
      [PrepareField("page_fields", Checkbox, "", ""),
       PrepareField("page_fields", FeaturedMedia, "", ""),
       PrepareField("page_fields", Repeater, "", "")]
  {
    assert Named(Checkbox);
    assert [Checkbox, FeaturedMedia, Repeater][1..] == [FeaturedMedia, Repeater];
    TailPrepared();
  }

  /** "checkbox_field" gets the group prefix, keeps its type and gains no return format. */
  lemma CheckboxPrepared()
    ensures var r := PrepareField("page_fields", Checkbox, "", "");
      && r.key == Some("page_fields_checkbox_field")
      && r.fieldType == Some("true_false")
      && r.returnFormat.None?
  {
    assert "page_fields" + "_" + "checkbox_field" == "page_fields_checkbox_field";
  }

  /** "repeater_field" gets the group prefix. */
  lemma RepeaterKey()
    ensures PrepareField("page_fields", Repeater, "", "").key == Some("page_fields_repeater_field")
  {
    assert "page_fields" + "_" + "repeater_field" == "page_fields_repeater_field";
  }

  /** The sub-fields of "repeater_field" keep their number and get the repeater's key as prefix. */
  lemma RepeaterPrepared()
    ensures |PrepareField("page_fields", Repeater, "", "").subFields| == 3
    ensures PrepareField("page_fields", Repeater, "", "").subFields[1].key ==
      Some("page_fields_repeater_field_another_field")
  {
    RepeaterKey();
    RepeaterSubFields("page_fields", Repeater, "", "");
    assert "page_fields_repeater_field" + "_" + "another_field" == "page_fields_repeater_field_another_field";
  }

  /** The attribute set by the usage file overrides its default; other defaults stay. */
  lemma PageFieldsSettings()
    ensures var m := Layered(GroupDefaults, map["label_placement" := Str("left")]);
      && "label_placement" in m && m["label_placement"] == Str("left")
      && "style" in m && m["style"] == Str("default")
  {
    assert "label_placement" !in FixedKeys && "style" !in FixedKeys;
    assert "style" in GroupDefaults;
  }

  /** What the prepared fields of "page_fields" hold, field by field. */
  lemma PageFieldsOutcome()
    ensures var fs := PreparedFields("page_fields", [Checkbox, FeaturedMedia, Repeater]);
      && |fs| == 3
      && fs[0].key == Some("page_fields_checkbox_field")
      && fs[0].fieldType == Some("true_false") && fs[0].returnFormat.None?
      && fs[1].logic == Some(Groups([[Rule("page_fields_checkbox_field", Some("=="), Some(Str("1")), false)]]))
      && |fs[2].subFields| == 3
      && fs[2].subFields[1].key == Some("page_fields_repeater_field_another_field")
  {
    PageFieldsPrepared();
    CheckboxPrepared();
    FeaturedMediaLogic();
    RepeaterPrepared();
  }

  /**
   * The usage file's chain: one location rule, one attribute, three fields,
   * then `register`. What the three prepared fields hold is stated by
   * `PageFieldsOutcome`.
   */
  method PageFields() returns (arguments: Arguments)
    ensures arguments.key == "page_fields" && arguments.title == "Page Fields"
    ensures arguments.location == [[LocationRule("post_type", Str("page"), "==")]]
    ensures "label_placement" in arguments.settings && arguments.settings["label_placement"] == Str("left")
    ensures "style" in arguments.settings && arguments.settings["style"] == Str("default")
    ensures arguments.fields == PreparedFields("page_fields", [Checkbox, FeaturedMedia, Repeater])
  {
    var group := new Group.Create("page_fields", "Page Fields");
    group := group.AddLocationRule("post_type", Str("page"));
    group := group.SetAttr("label_placement", Str("left"));
    group := group.AddFields([Checkbox, FeaturedMedia, Repeater]);
    assert group.fields == [Checkbox, FeaturedMedia, Repeater];
    assert group.attributes == map["label_placement" := Str("left")];
    assert |group.locations| == 1 && group.locations[0].rules == [LocationRule("post_type", Str("page"), "==")];
    arguments := group.Register();
    PageFieldsSettings();
  }

  /** Two `add_location_rule` calls on a fresh group fill one single location. */
  method TwoLocationRules(p1: string, v1: Value, p2: string, v2: Value, o2: string)
    returns (location: seq<seq<LocationRule>>)
    ensures location == [[LocationRule(p1, v1, "=="), LocationRule(p2, v2, o2)]]
  {
    var group := new Group.Create("g", "G");
    group := group.AddLocationRule(p1, v1);
    assert |group.locations| == 1 && group.locations[0].rules == [LocationRule(p1, v1, "==")];
    group := group.AddLocationRule(p2, v2, o2);
    assert |group.locations| == 1;
    assert group.locations[0].rules == [LocationRule(p1, v1, "=="), LocationRule(p2, v2, o2)];
    var arguments := group.Register();
    location := arguments.location;
    assert location == [location[0]];
  }
}
