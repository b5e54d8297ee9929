/**
 * `ACF_Group_Location`: one location of a field group, an AND-group of
 * rules that only ever grows.
 */
module Locations {
  import opened Values

  /** One location rule, stored verbatim: `compact('param', 'value', 'operator')`. */
  datatype LocationRule = LocationRule(param: string, value: Value, operator: string)

  class Location {
    /** The rules added so far, in insertion order. */
    var rules: seq<LocationRule>

    constructor ()
      ensures rules == []
    {
      rules := [];
    }

    /**
     * `add_rule($param, $value, $operator = '==')`: appends exactly one triple,
     * unvalidated, and returns this location for chaining.
     */
    method AddRule(param: string, value: Value, operator: string := "==") returns (self: Location)
      modifies this
      ensures self == this
      ensures |rules| == |old(rules)| + 1
      ensures rules[..|old(rules)|] == old(rules)
      ensures rules[|old(rules)|] == LocationRule(param, value, operator)
    {
      rules := rules + [LocationRule(param, value, operator)];
      self := this;
    }

    /** `get_rules()`: the accumulated rules, unmodified. */
    function GetRules(): seq<LocationRule>
      reads this
    {
      rules
    }
  }

  /**
   * A location built by two `add_rule` calls, the second without an operator:
   * `get_rules` gives both triples in order, the second with "==".
   */
  method TwoRules(p1: string, v1: Value, o1: string, p2: string, v2: Value)
    returns (rules: seq<LocationRule>)
    ensures rules == [LocationRule(p1, v1, o1), LocationRule(p2, v2, "==")]
  {
    var location := new Location();
    var chained := location.AddRule(p1, v1, o1);
    chained := chained.AddRule(p2, v2);
    rules := location.GetRules();
  }
}
