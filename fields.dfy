/**
 * Field declarations and their preparation (`ACF_Group::prepare_field` and
 * `ACF_Group::get_prepared_fields`).
 *
 * A declaration is a PHP array; the model gives the keys that preparation
 * reads or writes their own components and keeps every other key (label,
 * message, instructions, ...) in `extras`. A sub-field or layout list that the
 * declaration leaves out is the empty list here: iterating over the missing
 * value only warns in PHP and produces an empty list.
 */
module Fields {
  import opened Values
  import opened Text

  /** One conditional-logic rule: a reference to another field by name. */
  datatype Rule = Rule(field: string, operator: Option<string>, value: Option<Value>, outside: bool)

  /**
   * The `conditional_logic` entry: a falsy scalar (the default 0), a flat list
   * of rules (one AND-group), or a list of rule groups (OR of AND-groups).
   */
  datatype Logic =
    | Off
    | Flat(rules: seq<Rule>)
    | Groups(groups: seq<seq<Rule>>)

  /** A layout of a flexible-content field. */
  datatype Layout = Layout(key: Option<string>, subFields: seq<Field>, extras: map<string, Value>)

  /** A field declaration, raw or prepared. */
  datatype Field = Field(
    name: Option<string>,
    key: Option<string>,
    fieldType: Option<string>,
    logic: Option<Logic>,
    returnFormat: Option<string>,
    subFields: seq<Field>,
    layouts: seq<Layout>,
    extras: map<string, Value>)

  // ---------------------------------------------------------------------
  // Field-level defaults (the memoised `static $defaults`, filter = identity)
  // ---------------------------------------------------------------------

  const DefaultType: string := "text"

  /** The defaults whose keys have no component of their own in `Field`. */
  const FieldDefaultExtras: map<string, Value> := map[
    "instructions" := Str(""),
    "required" := Int(0),
    "default_value" := Str(""),
    "placeholder" := Str(""),
    "wrapper" := Dict(map["width" := Str("")])
  ]

  /** `conditional_logic` after the merge with the defaults: a missing entry becomes 0. */
  function LogicOrDefault(l: Option<Logic>): Logic {
    match l
    case Some(x) => x
    case None => Off
  }

  // ---------------------------------------------------------------------
  // Conditional logic
  // ---------------------------------------------------------------------

  /** PHP truthiness of a `conditional_logic` value: a non-empty array. */
  predicate Truthy(l: Logic) {
    match l
    case Off => false
    case Flat(rs) => rs != []
    case Groups(gs) => gs != []
  }

  /** A rule carries both an operator and a non-null value. */
  predicate Complete(r: Rule) {
    r.operator.Some? && IsSet(r.value)
  }

  /** Prepared logic: left as it was when falsy, otherwise a list of groups of complete rules. */
  predicate Normalized(l: Logic) {
    !Truthy(l) ||
    (l.Groups? && forall i, j :: 0 <= i < |l.groups| && 0 <= j < |l.groups[i]| ==> Complete(l.groups[i][j]))
  }

  /**
   * One rule, rewritten under `prefix`: the reference gets the prefix, a
   * missing operator becomes "==", a missing or null value "1", and a rule marked
   * `outside` inside a repeater named `parent` loses one occurrence of that
   * name, after which "__" is collapsed to "_".
   */
  function PrepareRule(r: Rule, prefix: string, parent: string): (o: Rule)
    ensures Complete(o) && o.outside == r.outside
    ensures r.operator.Some? ==> o.operator == r.operator
    ensures r.operator.None? ==> o.operator == Some("==")
    ensures IsSet(r.value) ==> o.value == r.value
    ensures !IsSet(r.value) ==> o.value == Some(Str("1"))
    ensures !r.outside || Falsy(parent) ==> o.field == prefix + r.field
    ensures r.outside && !Falsy(parent) ==>
      o.field == CollapseDoubleUnderscore(RemoveOutside(prefix + r.field, parent))
  {
    var reference := prefix + r.field;
    Rule(
      if r.outside && !Falsy(parent) then CollapseDoubleUnderscore(RemoveOutside(reference, parent)) else reference,
      if r.operator.Some? then r.operator else Some("=="),
      if IsSet(r.value) then r.value else Some(Str("1")),
      r.outside)
  }

  /** The rules of one group, each prepared, as the inner `foreach` accumulates them. */
  function PrepareGroup(g: seq<Rule>, prefix: string, parent: string): (o: seq<Rule>)
    ensures |o| == |g|
    ensures forall j :: 0 <= j < |g| ==> o[j] == PrepareRule(g[j], prefix, parent)
  {
    if g == [] then [] else [PrepareRule(g[0], prefix, parent)] + PrepareGroup(g[1..], prefix, parent)
  }

  /** Every group prepared, as the outer `foreach` accumulates them. */
  function PrepareGroups(gs: seq<seq<Rule>>, prefix: string, parent: string): (o: seq<seq<Rule>>)
    ensures |o| == |gs|
    ensures forall i :: 0 <= i < |gs| ==> o[i] == PrepareGroup(gs[i], prefix, parent)
  {
    if gs == [] then [] else [PrepareGroup(gs[0], prefix, parent)] + PrepareGroups(gs[1..], prefix, parent)
  }

  /**
   * The list of groups a truthy `conditional_logic` stands for: a flat list
   * (its first element carries `field`) is one group.
   */
  function RawGroups(l: Logic): seq<seq<Rule>> {
    match l
    case Off => []
    case Flat(rs) => [rs]
    case Groups(gs) => gs
  }

  /** The conditional-logic step of preparation. */
  function PrepareLogic(l: Logic, prefix: string, parent: string): (o: Logic)
    ensures !Truthy(l) ==> o == l
    ensures Truthy(l) ==> o.Groups? && |o.groups| == |RawGroups(l)|
    ensures l.Flat? && Truthy(l) ==> |o.groups| == 1
    ensures Truthy(l) ==> forall i :: 0 <= i < |o.groups| ==> |o.groups[i]| == |RawGroups(l)[i]|
    ensures Truthy(l) ==> forall i, j :: 0 <= i < |o.groups| && 0 <= j < |o.groups[i]| ==>
      o.groups[i][j] == PrepareRule(RawGroups(l)[i][j], prefix, parent)
    ensures Normalized(o)
  {
    if Truthy(l) then Groups(PrepareGroups(RawGroups(l), prefix, parent)) else l
  }

  // ---------------------------------------------------------------------
  // Keys
  // ---------------------------------------------------------------------

  /** The prefix in force: a falsy prefix is replaced by the group id and "_". */
  function EffectivePrefix(id: string, prefix: string): string {
    if Falsy(prefix) then id + "_" else prefix
  }

  /** The prefix of the sub-fields of one flexible-content layout. */
  function LayoutPrefix(fieldKey: string, layoutKey: Option<string>): string {
    Lower(fieldKey + "_" + AsText(layoutKey) + "_")
  }

  /** A prefix that ends in "_" is never falsy, so it is used as given. */
  lemma UnderscoredPrefixKept(id: string, s: string)
    ensures EffectivePrefix(id, s + "_") == s + "_"
  {
    assert (s + "_")[|s|] == '_';
  }

  /** Layout prefixes are at least two characters long, so they are never falsy. */
  lemma LayoutPrefixKept(id: string, fieldKey: string, layoutKey: Option<string>)
    ensures EffectivePrefix(id, LayoutPrefix(fieldKey, layoutKey)) == LayoutPrefix(fieldKey, layoutKey)
  {
    assert |LayoutPrefix(fieldKey, layoutKey)| >= 2;
  }

  // ---------------------------------------------------------------------
  // The invariant of a prepared field
  // ---------------------------------------------------------------------

  predicate IsFileType(t: string) {
    t == "image" || t == "file"
  }

  /**
   * `f` is a prepared field under `prefix`: its key is the prefix followed by
   * its name, the defaults are present, its logic is normalised, a file field
   * has a return format, and nested fields are prepared under the prefixes
   * their repeater or layout gives them.
   */
  predicate Prepared(f: Field, prefix: string)
    decreases f
  {
    && f.key == Some(prefix + AsText(f.name))
    && f.fieldType.Some?
    && f.logic.Some? && Normalized(f.logic.value)
    && FieldDefaultExtras.Keys <= f.extras.Keys
    && (IsFileType(f.fieldType.value) ==> f.returnFormat.Some?)
    && (f.fieldType.value == "repeater" ==>
          forall sf :: sf in f.subFields ==> Prepared(sf, f.key.value + "_"))
    && (f.fieldType.value == "flexible_content" ==>
          forall l :: l in f.layouts ==>
            forall sf :: sf in l.subFields ==> Prepared(sf, LayoutPrefix(f.key.value, l.key)))
  }

  // ---------------------------------------------------------------------
  // prepare_field
  // ---------------------------------------------------------------------

  /**
   * `prepare_field($field, $prefix, $parent_key)` for the group `id`.
   * The caller's values win over the defaults; the key is always derived,
   * whatever key the caller gave.
   */
  function PrepareField(id: string, f: Field, prefix: string, parent: string): (r: Field)
    decreases f
    ensures r.name == f.name
    ensures r.key == Some(EffectivePrefix(id, prefix) + AsText(f.name))
    ensures f.fieldType.Some? ==> r.fieldType == f.fieldType
    ensures f.fieldType.None? ==> r.fieldType == Some(DefaultType)
    ensures forall k :: k in FieldDefaultExtras ==> k in r.extras
    ensures forall k :: k in FieldDefaultExtras && k !in f.extras ==> r.extras[k] == FieldDefaultExtras[k]
    ensures forall k :: k in f.extras ==> k in r.extras && r.extras[k] == f.extras[k]
    ensures forall k :: k in r.extras ==> k in f.extras || k in FieldDefaultExtras
    ensures r.logic == Some(PrepareLogic(LogicOrDefault(f.logic), EffectivePrefix(id, prefix), parent))
    ensures IsFileType(r.fieldType.value) ==> r.returnFormat.Some?
    ensures IsFileType(r.fieldType.value) && f.returnFormat.None? ==> r.returnFormat == Some("id")
    ensures f.returnFormat.Some? ==> r.returnFormat == f.returnFormat
    ensures !IsFileType(r.fieldType.value) ==> r.returnFormat == f.returnFormat
    ensures r.fieldType.value != "repeater" ==> r.subFields == f.subFields
    ensures r.fieldType.value == "repeater" ==> |r.subFields| == |f.subFields|
    ensures r.fieldType.value != "flexible_content" ==> r.layouts == f.layouts
    ensures r.fieldType.value == "flexible_content" ==> |r.layouts| == |f.layouts|
    ensures Prepared(r, EffectivePrefix(id, prefix))
  {
    var p := EffectivePrefix(id, prefix);
    var key := p + AsText(f.name);
    var fieldType := if f.fieldType.Some? then f.fieldType.value else DefaultType;
    var merged := f.(
      key := Some(key),
      fieldType := Some(fieldType),
      logic := Some(PrepareLogic(LogicOrDefault(f.logic), p, parent)),
      extras := FieldDefaultExtras + f.extras);
    if IsFileType(fieldType) then
      merged.(returnFormat := if f.returnFormat.Some? then f.returnFormat else Some("id"))
    else if fieldType == "repeater" then
      UnderscoredPrefixKept(id, key);
      merged.(subFields := seq(|f.subFields|, i requires 0 <= i < |f.subFields| =>
        PrepareField(id, f.subFields[i], key + "_", AsText(f.name))))
    else if fieldType == "flexible_content" then
      merged.(layouts := seq(|f.layouts|, i requires 0 <= i < |f.layouts| =>
        PrepareLayout(id, f.layouts[i], key)))
    else
      merged
  }

  /** One layout of a flexible-content field whose key is `fieldKey`; nested fields have no parent. */
  function PrepareLayout(id: string, l: Layout, fieldKey: string): (r: Layout)
    decreases l
    ensures r.key == l.key && r.extras == l.extras && |r.subFields| == |l.subFields|
    ensures forall sf :: sf in r.subFields ==> Prepared(sf, LayoutPrefix(fieldKey, l.key))
  {
    var p := LayoutPrefix(fieldKey, l.key);
    LayoutPrefixKept(id, fieldKey, l.key);
    l.(subFields := seq(|l.subFields|, j requires 0 <= j < |l.subFields| =>
      PrepareField(id, l.subFields[j], p, "")))
  }

  // ---------------------------------------------------------------------
  // Nested fields
  // ---------------------------------------------------------------------

  /**
   * A repeater prepares its sub-fields one for one, in order, with prefix
   * `key + "_"` and with its NAME (not its key) as the parent for "outside".
   */
  lemma RepeaterSubFields(id: string, f: Field, prefix: string, parent: string)
    requires f.fieldType == Some("repeater")
    ensures var r := PrepareField(id, f, prefix, parent);
      && |r.subFields| == |f.subFields|
      && forall i :: 0 <= i < |f.subFields| ==>
           && r.subFields[i] == PrepareField(id, f.subFields[i], r.key.value + "_", AsText(f.name))
           && r.subFields[i].key == Some(r.key.value + "_" + AsText(f.subFields[i].name))
  {
    var r := PrepareField(id, f, prefix, parent);
    UnderscoredPrefixKept(id, r.key.value);
  }

  /**
   * A flexible-content field prepares every layout, in order, and every
   * sub-field of a layout, in order, under the lower-cased prefix
   * `key + "_" + layout key + "_"`, with no parent.
   */
  lemma FlexibleContentLayouts(id: string, f: Field, prefix: string, parent: string)
    requires f.fieldType == Some("flexible_content")
    ensures var r := PrepareField(id, f, prefix, parent);
      && |r.layouts| == |f.layouts|
      && forall i :: 0 <= i < |f.layouts| ==>
           && r.layouts[i].key == f.layouts[i].key
           && r.layouts[i].extras == f.layouts[i].extras
           && |r.layouts[i].subFields| == |f.layouts[i].subFields|
           && forall j :: 0 <= j < |f.layouts[i].subFields| ==>
                var lp := LayoutPrefix(r.key.value, f.layouts[i].key);
                && r.layouts[i].subFields[j] == PrepareField(id, f.layouts[i].subFields[j], lp, "")
                && r.layouts[i].subFields[j].key == Some(lp + AsText(f.layouts[i].subFields[j].name))
  {
    var r := PrepareField(id, f, prefix, parent);
    forall i | 0 <= i < |f.layouts| {
      LayoutPrefixKept(id, r.key.value, f.layouts[i].key);
    }
  }

  /** Without a parent name (top level, or inside a layout) "outside" changes nothing. */
  lemma OutsideNeedsParent(r: Rule, prefix: string)
    ensures PrepareRule(r, prefix, "").field == prefix + r.field
  {
  }

  /**
   * The purpose of "outside": inside a repeater named `n` whose enclosing
   * prefix is `outer + "_"`, a rule on `x` marked `outside` refers to
   * `outer + "_" + x`, the key that `x` has beside the repeater. This holds
   * when `n` occurs only once in the rewritten reference and the underscores
   * around the removed name are the only ones that meet.
   */
  lemma {:induction false} OutsideEscapesOneLevel(outer: string, n: string, x: string, op: Option<string>, v: Option<Value>)
    requires !Falsy(n)
    requires forall j: nat :: OccursAt(outer + "_" + n + "_" + x, n, j) ==> j == |outer| + 1
    requires NoDoubleUnderscore(outer) && (outer == [] || outer[|outer| - 1] != '_')
    requires NoDoubleUnderscore(x) && (x == [] || x[0] != '_')
    ensures PrepareRule(Rule(x, op, v, true), outer + "_" + n + "_", n).field == outer + "_" + x
  {
    EscapeOneLevel(outer, n, x);
  }

  // ---------------------------------------------------------------------
  // get_prepared_fields
  // ---------------------------------------------------------------------

  /** `isset($field['name']) && $field['name']`. */
  predicate Named(f: Field) {
    f.name.Some? && !Falsy(f.name.value)
  }

  /** The number of declarations in `fs` that have a name. */
  function CountNamed(fs: seq<Field>): nat {
    if fs == [] then 0 else (if Named(fs[0]) then 1 else 0) + CountNamed(fs[1..])
  }

  /**
   * `get_prepared_fields` over the declarations `fs` of group `id`: every
   * declaration without a (truthy) name is skipped, every other one is
   * prepared as a top-level field.
   */
  function PreparedFields(id: string, fs: seq<Field>): (r: seq<Field>)
    ensures |r| == CountNamed(fs)
    ensures forall g :: g in r ==> Named(g) && g.key == Some(id + "_" + g.name.value) && Prepared(g, id + "_")
  {
    if fs == [] then []
    else (if Named(fs[0]) then [PrepareField(id, fs[0], "", "")] else []) + PreparedFields(id, fs[1..])
  }

  /**
   * The named declaration at index `i` is prepared at index "number of named
   * declarations before it": one prepared field per named declaration, in the
   * original order.
   */
  lemma {:induction false} PreparedFieldsInOrder(id: string, fs: seq<Field>)
    ensures forall i :: 0 <= i < |fs| && Named(fs[i]) ==>
      CountNamed(fs[..i]) < |PreparedFields(id, fs)| &&
      PreparedFields(id, fs)[CountNamed(fs[..i])] == PrepareField(id, fs[i], "", "")
  {
    if fs != [] {
      var head := if Named(fs[0]) then [PrepareField(id, fs[0], "", "")] else [];
      var rest := PreparedFields(id, fs[1..]);
      assert PreparedFields(id, fs) == head + rest;
      PreparedFieldsInOrder(id, fs[1..]);
      forall i | 0 <= i < |fs| && Named(fs[i])
        ensures CountNamed(fs[..i]) < |PreparedFields(id, fs)|
        ensures PreparedFields(id, fs)[CountNamed(fs[..i])] == PrepareField(id, fs[i], "", "")
      {
        if i == 0 {
          assert fs[..i] == [];
        } else {
          var k := CountNamed(fs[1..][..i - 1]);
          assert fs[..i][1..] == fs[1..][..i - 1];
          assert CountNamed(fs[..i]) == |head| + k;
          assert (head + rest)[|head| + k] == rest[k];
        }
      }
    }
  }
}
