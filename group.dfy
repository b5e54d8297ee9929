/**
 * `ACF_Group`: the builder that accumulates locations, fields and attributes
 * of one field group, and `register`, which assembles the arguments handed
 * to the host's `acf_add_local_field_group`. Both filter hooks of `register`
 * are the identity here, and the host call itself is outside the model:
 * `Register` returns the arguments instead.
 */
module FieldGroup {
  import opened Values
  import opened Fields
  import opened Locations

  /** The top-level defaults of a field group. */
  const GroupDefaults: map<string, Value> := map[
    "menu_order" := Int(0),
    "position" := Str("normal"),
    "style" := Str("default"),
    "label_placement" := Str("top"),
    "instruction_placement" := Str("label"),
    "hide_on_screen" := Str(""),
    "active" := Int(1),
    "description" := Str("")
  ]

  /** The keys that `register` always sets itself. */
  const FixedKeys: set<string> := {"key", "title", "fields", "location"}

  /**
   * The registration arguments. `settings` holds every key other than the
   * four fixed ones, whose values have components of their own.
   */
  datatype Arguments = Arguments(
    key: string,
    title: string,
    fields: seq<Field>,
    location: seq<seq<LocationRule>>,
    settings: map<string, Value>)

  /**
   * `array_merge($defaults, $attributes, [fixed keys])` restricted to the
   * keys that are not fixed: attributes win over defaults.
   */
  function Layered(defaults: map<string, Value>, attributes: map<string, Value>): (m: map<string, Value>)
    ensures forall k :: k in m <==> k !in FixedKeys && (k in defaults || k in attributes)
    ensures forall k :: k in m && k in attributes ==> m[k] == attributes[k]
    ensures forall k :: k in m && k !in attributes ==> m[k] == defaults[k]
  {
    (defaults + attributes) - FixedKeys
  }

  class Group {
    /** The group id; it prefixes every field key and never changes. */
    const id: string
    const title: string
    /** The raw field declarations, in the order they were added. */
    var fields: seq<Field>
    var attributes: map<string, Value>
    var locations: seq<Location>

    /** `ACF_Group::create($id, $title)`. */
    constructor Create(id: string, title: string)
      ensures this.id == id && this.title == title
      ensures fields == [] && attributes == map[] && locations == []
    {
      this.id := id;
      this.title := title;
      fields := [];
      attributes := map[];
      locations := [];
    }

    /**
     * `add_location_rule`: creates the first location if there is none, and
     * appends the rule to the first location, whichever object that is.
     */
    method AddLocationRule(param: string, value: Value, operator: string := "==") returns (self: Group)
      modifies this, locations
      ensures self == this
      ensures fields == old(fields) && attributes == old(attributes)
      ensures old(locations) == [] ==>
        |locations| == 1 && fresh(locations[0]) &&
        locations[0].rules == [LocationRule(param, value, operator)]
      ensures old(locations) != [] ==>
        locations == old(locations) &&
        locations[0].rules == old(locations[0].rules) + [LocationRule(param, value, operator)]
      ensures forall l :: l in old(locations) && l != locations[0] ==> l.rules == old(l.rules)
    {
      if locations == [] {
        var first := new Location();
        locations := locations + [first];
      }
      var chained := locations[0].AddRule(param, value, operator);
      self := this;
    }

    /** `add_location`: appends a location object as a further OR-alternative. */
    method AddLocation(location: Location) returns (self: Group)
      modifies this
      ensures self == this
      ensures locations == old(locations) + [location]
      ensures fields == old(fields) && attributes == old(attributes)
    {
      locations := locations + [location];
      self := this;
    }

    /** `add_fields`: appends the declarations in order, without validation. */
    method AddFields(newFields: seq<Field>) returns (self: Group)
      modifies this
      ensures self == this
      ensures fields == old(fields) + newFields
      ensures attributes == old(attributes) && locations == old(locations)
    {
      var i := 0;
      while i < |newFields|
        invariant 0 <= i <= |newFields|
        invariant fields == old(fields) + newFields[..i]
        invariant attributes == old(attributes) && locations == old(locations)
      {
        fields := fields + [newFields[i]];
        i := i + 1;
        assert newFields[..i] == newFields[..i - 1] + [newFields[i - 1]];
      }
      assert newFields[..i] == newFields;
      self := this;
    }

    /** `set_attr($key, $value = null)`: the last write to a key wins. */
    method SetAttr(key: string, value: Value := Null) returns (self: Group)
      modifies this
      ensures self == this
      ensures attributes == old(attributes)[key := value]
      ensures fields == old(fields) && locations == old(locations)
    {
      attributes := attributes[key := value];
      self := this;
    }

    /** `set_attr($array)`: every entry is written, overriding earlier values. */
    method SetAttrs(entries: map<string, Value>) returns (self: Group)
      modifies this
      ensures self == this
      ensures attributes == old(attributes) + entries
      ensures fields == old(fields) && locations == old(locations)
    {
      var rest := entries.Keys;
      while rest != {}
        invariant rest <= entries.Keys
        invariant attributes == old(attributes) + map k | k in entries.Keys - rest :: entries[k]
        invariant fields == old(fields) && locations == old(locations)
        decreases rest
      {
        var k :| k in rest;
        attributes := attributes[k := entries[k]];
        rest := rest - {k};
      }
      assert (map k | k in entries.Keys - rest :: entries[k]) == entries;
      self := this;
    }

    /**
     * `register()`: the location list is one rule list per location, in
     * insertion order; the fields are the prepared named declarations; the
     * other settings layer attributes over defaults.
     */
    method Register() returns (arguments: Arguments)
      ensures arguments.key == id && arguments.title == title
      ensures arguments.fields == PreparedFields(id, fields)
      ensures |arguments.location| == |locations|
      ensures forall k :: 0 <= k < |locations| ==> arguments.location[k] == locations[k].rules
      ensures arguments.settings == Layered(GroupDefaults, attributes)
    {
      var rules: seq<seq<LocationRule>> := [];
      var i := 0;
      while i < |locations|
        invariant 0 <= i <= |locations|
        invariant |rules| == i
        invariant forall k :: 0 <= k < i ==> rules[k] == locations[k].rules
      {
        rules := rules + [locations[i].GetRules()];
        i := i + 1;
      }
      arguments := Arguments(id, title, PreparedFields(id, fields), rules, Layered(GroupDefaults, attributes));
    }
  }
}
