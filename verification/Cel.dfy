/** The fragment of CEL that the generated selectors use, with its three-valued
    logic: a runtime error is a value, and `&&` and `||` absorb it from either
    side (CEL Language Definition, sections "Logical Operators" and "Runtime
    Errors"). */
module Cel {
  import opened Resources
  import Prelude

  datatype Value =
    | Bool(b: bool)
    | Int(i: int)
    | Str(s: string)
    | Quantity(q: nat)
    | Semver(v: string)
    | Map(m: map<string, Value>)
    | List(elems: seq<Value>)
    | Error

  datatype Expr =
    | Const(v: Value)
    | Driver                                  // device.driver
    | Attributes(domain: string)              // device.attributes['domain']
    | Capacity(domain: string)                // device.capacity['domain']
    | Select(operand: Expr, field: string)    // operand.field
    | In(member: Expr, collection: Expr)
    | Eq(left: Expr, right: Expr)
    | Ge(left: Expr, right: Expr)
    | CompareTo(left: Expr, right: Expr)      // quantity comparison, -1 / 0 / 1
    | Not(e: Expr)
    | And(left: Expr, right: Expr)
    | Or(left: Expr, right: Expr)

  function AttributeValue(a: Attribute): Value {
    match a
    case StrAttr(s) => Str(s)
    case IntAttr(i) => Int(i)
    case BoolAttr(b) => Bool(b)
    case VersionAttr(v) => Semver(v)
  }

  /** An unknown domain reads as an empty map. */
  function AttributeMap(driver: string, d: Device, domain: string): map<string, Value> {
    var own := if domain == driver then d.attributes
               else if domain == STANDARD_DOMAIN then d.standard
               else map[];
    map name | name in own :: AttributeValue(own[name])
  }

  function CapacityMap(driver: string, d: Device, domain: string): map<string, Value> {
    var own := if domain == driver then d.capacity else map[];
    map name | name in own :: Quantity(own[name])
  }

  function AndValue(l: Value, r: Value): Value {
    if l == Bool(false) || r == Bool(false) then Bool(false)
    else if l == Bool(true) && r == Bool(true) then Bool(true)
    else Error
  }

  function OrValue(l: Value, r: Value): Value {
    if l == Bool(true) || r == Bool(true) then Bool(true)
    else if l == Bool(false) && r == Bool(false) then Bool(false)
    else Error
  }

  function InValue(x: Value, c: Value): Value {
    if x.Error? then Error
    else match c
      case Map(m) => if x.Str? then Bool(x.s in m) else Error
      case List(elems) => Bool(x in elems)
      case _ => Error
  }

  function Eval(e: Expr, driver: string, d: Device): Value {
    match e
    case Const(v) => v
    case Driver => Str(driver)
    case Attributes(domain) => Map(AttributeMap(driver, d, domain))
    case Capacity(domain) => Map(CapacityMap(driver, d, domain))
    case Select(operand, field) =>
      var o := Eval(operand, driver, d);
      if o.Map? && field in o.m then o.m[field] else Error
    case In(member, collection) => InValue(Eval(member, driver, d), Eval(collection, driver, d))
    case Eq(left, right) =>
      var l, r := Eval(left, driver, d), Eval(right, driver, d);
      if l.Error? || r.Error? then Error else Bool(l == r)
    case Ge(left, right) =>
      var l, r := Eval(left, driver, d), Eval(right, driver, d);
      if l.Int? && r.Int? then Bool(l.i >= r.i) else Error
    case CompareTo(left, right) =>
      var l, r := Eval(left, driver, d), Eval(right, driver, d);
      if l.Quantity? && r.Quantity? then
        Int(if l.q < r.q then -1 else if l.q == r.q then 0 else 1)
      else Error
    case Not(x) =>
      var v := Eval(x, driver, d);
      if v.Bool? then Bool(!v.b) else Error
    case And(left, right) => AndValue(Eval(left, driver, d), Eval(right, driver, d))
    case Or(left, right) => OrValue(Eval(left, driver, d), Eval(right, driver, d))
  }

  // ---- The shapes the compilers emit --------------------------------------

  /** `'name' in device.attributes['domain']` */
  function HasAttr(domain: string, name: string): Expr {
    In(Const(Str(name)), Attributes(domain))
  }

  /** `device.attributes['domain'].name` */
  function Attr(domain: string, name: string): Expr {
    Select(Attributes(domain), name)
  }

  /** `'name' in device.capacity['domain']` */
  function HasCap(domain: string, name: string): Expr {
    In(Const(Str(name)), Capacity(domain))
  }

  /** `device.capacity['domain'].name.compareTo(quantity('n')) >= 0` */
  function CapAtLeast(domain: string, name: string, n: nat): Expr {
    Ge(CompareTo(Select(Capacity(domain), name), Const(Quantity(n))), Const(Int(0)))
  }

  /** `device.attributes['domain'].name >= n` */
  function AttrAtLeast(domain: string, name: string, n: int): Expr {
    Ge(Attr(domain, name), Const(Int(n)))
  }

  /** `device.attributes['domain'].name == 's'` */
  function AttrIs(domain: string, name: string, s: string): Expr {
    Eq(Attr(domain, name), Const(Str(s)))
  }

  function StrValues(names: seq<string>): seq<Value> {
    seq(|names|, i requires 0 <= i < |names| => Str(names[i]))
  }

  /** `device.attributes['domain'].name in ['a', 'b', ...]` */
  function AttrAmong(domain: string, name: string, names: seq<string>): Expr {
    In(Attr(domain, name), Const(List(StrValues(names))))
  }

  /** `e0 && e1 && ...` */
  function AndAll(es: seq<Expr>): Expr
    requires es != []
  {
    if |es| == 1 then es[0] else And(AndAll(es[..|es| - 1]), es[|es| - 1])
  }

  /** `e0 || e1 || ...` */
  function OrAny(es: seq<Expr>): Expr
    requires es != []
  {
    if |es| == 1 then es[0] else Or(OrAny(es[..|es| - 1]), es[|es| - 1])
  }

  ghost predicate IsBool(e: Expr, driver: string, d: Device) {
    Eval(e, driver, d).Bool?
  }

  ghost predicate Holds(e: Expr, driver: string, d: Device) {
    Eval(e, driver, d) == Bool(true)
  }

  ghost predicate Fails(e: Expr, driver: string, d: Device) {
    Eval(e, driver, d) == Bool(false)
  }

  /** A conjunction is false as soon as one conjunct is, wherever it stands and
      whatever the others raise; true when all hold; an error otherwise. */
  lemma {:induction false} EvalAndAll(es: seq<Expr>, driver: string, d: Device)
    requires es != []
    ensures Holds(AndAll(es), driver, d) <==> forall i :: 0 <= i < |es| ==> Holds(es[i], driver, d)
    ensures |es| > 1 ==> (Fails(AndAll(es), driver, d) <==> exists i :: 0 <= i < |es| && Fails(es[i], driver, d))
    ensures (exists i :: 0 <= i < |es| && Fails(es[i], driver, d)) ==> Fails(AndAll(es), driver, d)
    ensures (forall i :: 0 <= i < |es| ==> IsBool(es[i], driver, d)) ==> IsBool(AndAll(es), driver, d)
  {
    if |es| > 1 {
      var init, last := es[..|es| - 1], es[|es| - 1];
      EvalAndAll(init, driver, d);
      assert forall i :: 0 <= i < |init| ==> init[i] == es[i];
      assert forall i :: 0 <= i < |es| ==> (i < |init| || es[i] == last);
      assert Eval(AndAll(es), driver, d) == AndValue(Eval(AndAll(init), driver, d), Eval(last, driver, d));
    }
  }

  /** The dual for disjunctions; the compilers only disjoin error-free parts. */
  lemma {:induction false} EvalOrAny(es: seq<Expr>, driver: string, d: Device)
    requires es != []
    ensures Holds(OrAny(es), driver, d) <==> exists i :: 0 <= i < |es| && Holds(es[i], driver, d)
    ensures (forall i :: 0 <= i < |es| ==> IsBool(es[i], driver, d)) ==> IsBool(OrAny(es), driver, d)
  {
    if |es| > 1 {
      var init, last := es[..|es| - 1], es[|es| - 1];
      EvalOrAny(init, driver, d);
      assert forall i :: 0 <= i < |init| ==> init[i] == es[i];
      assert forall i :: 0 <= i < |es| ==> (i < |init| || es[i] == last);
      assert Eval(OrAny(es), driver, d) == OrValue(Eval(OrAny(init), driver, d), Eval(last, driver, d));
      if i :| 0 <= i < |init| && Holds(init[i], driver, d) {
        assert Holds(es[i], driver, d);
      }
    }
  }

  // ---- Leaves --------------------------------------------------------------

  lemma EvalHas(driver: string, d: Device, name: string)
    ensures Eval(HasAttr(driver, name), driver, d) == Bool(name in d.attributes)
    ensures Eval(HasCap(driver, name), driver, d) == Bool(name in d.capacity)
  {
    assert Eval(Attributes(driver), driver, d) == Map(AttributeMap(driver, d, driver));
    assert Eval(Capacity(driver), driver, d) == Map(CapacityMap(driver, d, driver));
  }

  lemma EvalAttr(driver: string, d: Device, name: string)
    ensures Eval(Attr(driver, name), driver, d) ==
            if name in d.attributes then AttributeValue(d.attributes[name]) else Error
  {
    assert Eval(Attributes(driver), driver, d) == Map(AttributeMap(driver, d, driver));
  }

  lemma EvalCapAtLeast(driver: string, d: Device, name: string, n: nat)
    ensures Eval(CapAtLeast(driver, name, n), driver, d) ==
            if name in d.capacity then Bool(d.capacity[name] >= n) else Error
  {
    var cap := Select(Capacity(driver), name);
    assert Eval(Capacity(driver), driver, d) == Map(CapacityMap(driver, d, driver));
    assert Eval(cap, driver, d) == if name in d.capacity then Quantity(d.capacity[name]) else Error;
    var cmp := CompareTo(cap, Const(Quantity(n)));
    assert Eval(Const(Quantity(n)), driver, d) == Quantity(n);
    assert Eval(cmp, driver, d) ==
      if name in d.capacity then
        Int(if d.capacity[name] < n then -1 else if d.capacity[name] == n then 0 else 1)
      else Error;
    assert Eval(Const(Int(0)), driver, d) == Int(0);
  }

  lemma EvalAttrTests(driver: string, d: Device, name: string, n: int, s: string, names: seq<string>)
    ensures Eval(AttrAtLeast(driver, name, n), driver, d) ==
            if IntOf(d, name).Some? then Bool(IntOf(d, name).value >= n) else Error
    ensures Eval(AttrIs(driver, name, s), driver, d) ==
            if name in d.attributes then Bool(StrOf(d, name) == Prelude.Some(s)) else Error
    ensures Eval(AttrAmong(driver, name, names), driver, d) ==
            if name in d.attributes then Bool(StrOf(d, name).Some? && StrOf(d, name).value in names) else Error
  {
    EvalAttr(driver, d, name);
    var v := Eval(Attr(driver, name), driver, d);
    assert Eval(Const(Int(n)), driver, d) == Int(n);
    assert Eval(Const(Str(s)), driver, d) == Str(s);
    var l := StrValues(names);
    assert Eval(Const(List(l)), driver, d) == List(l);
    assert v in l <==> v.Str? && v.s in names by {
      forall i | 0 <= i < |names|
        ensures l[i] == Str(names[i]) && l[i] in l
      {
      }
    }
  }
}
