/**
 * The validation decorators of src/examples/4-decorators.ts.
 *
 * `Required` and `PositiveNumber` are property decorators: applied to a
 * class's property, each stores a one-element list of validator names in a
 * global dictionary, keyed by the class name and then the property name.
 * `validate(obj)` looks up the entry for the object's class and runs every
 * registered check against the object's property values, folding them into
 * one boolean. Values are modelled as JavaScript primitive values.
 */
module Decorators {
  import opened Optional

  /** A JavaScript value as far as the two checks look at it. Numbers are
      finite (no NaN, no infinities). */
  datatype JsValue = Undefined | Null | Bool(b: bool) | Num(n: real) | Str(s: string)

  /** JavaScript truthiness, the `!!value` of the `required` check. */
  predicate Truthy(v: JsValue)
    ensures Truthy(v) <==> v !in {Undefined, Null, Bool(false), Num(0.0), Str("")}
  {
    match v
    case Undefined => false
    case Null => false
    case Bool(b) => b
    case Num(n) => n != 0.0
    case Str(s) => |s| > 0
  }

  predicate IsDigit(c: char) { '0' <= c <= '9' }

  /** The value of a string of decimal digits. */
  function DecimalValue(s: string): nat
    requires forall i :: 0 <= i < |s| ==> IsDigit(s[i])
  {
    if s == [] then 0
    else
      var last := |s| - 1;
      var digit := s[last] as int - '0' as int;
      assert IsDigit(s[last]) && 0 <= digit <= 9;
      10 * DecimalValue(s[..last]) + digit
  }

  /** JavaScript's conversion to a number for a loose comparison with 0;
      None stands for NaN. */
  function ToNumber(v: JsValue): (r: Option<real>)
    ensures v.Num? ==> r == Some(v.n)
    ensures v == Undefined ==> r == None
  {
    match v
    case Undefined => None
    case Null => Some(0.0)
    case Bool(b) => Some(if b then 1.0 else 0.0)
    case Num(n) => Some(n)
    case Str(s) =>
      if forall i :: 0 <= i < |s| ==> IsDigit(s[i]) then Some(DecimalValue(s) as real)
      else None
  }

  /** The `obj[prop] > 0` of the `positive` check; NaN compares false. */
  predicate Positive(v: JsValue)
    ensures v.Num? ==> (Positive(v) <==> v.n > 0.0)
    ensures v.Bool? ==> (Positive(v) <==> v.b)
    ensures v == Undefined || v == Null || v == Str("") ==> !Positive(v)
  {
    var n := ToNumber(v);
    n.Some? && n.value > 0.0
  }

  /** A check passes iff the named validator accepts the value; names other
      than `required` and `positive` impose nothing. */
  predicate Check(validator: string, v: JsValue)
    ensures validator == "required" ==> (Check(validator, v) <==> Truthy(v))
    ensures validator == "positive" ==> (Check(validator, v) <==> Positive(v))
    ensures validator != "required" && validator != "positive" ==> Check(validator, v)
  {
    if validator == "required" then Truthy(v)
    else if validator == "positive" then Positive(v)
    else true
  }

  lemma PositiveExamples()
    ensures Positive(Num(99.0)) && !Positive(Num(-10.0)) && !Positive(Num(0.0))
    ensures Positive(Str("12")) && !Positive(Str("")) && !Positive(Str("abc"))
    ensures Positive(Bool(true)) && !Positive(Null) && !Positive(Undefined)
  {
    assert !(forall i :: 0 <= i < |"abc"| ==> IsDigit("abc"[i])) by {
      assert !IsDigit("abc"[0]);
    }
    assert DecimalValue("12") == 12 by {
      assert "12"[..1] == "1";
      assert "1"[..0] == "";
    }
  }

  /** One property's entry in a class's validator configuration. */
  datatype Entry = Entry(prop: string, validators: seq<string>)

  /** A class's configuration: its entries in property insertion order,
      which is the order `for (const prop in ...)` visits them. */
  type ClassConfig = seq<Entry>

  predicate UniqueProps(cfg: ClassConfig) {
    forall i, j :: 0 <= i < j < |cfg| ==> cfg[i].prop != cfg[j].prop
  }

  function Props(cfg: ClassConfig): (ps: seq<string>)
    ensures |ps| == |cfg|
    ensures forall i :: 0 <= i < |cfg| ==> ps[i] == cfg[i].prop
  {
    if cfg == [] then [] else [cfg[0].prop] + Props(cfg[1..])
  }

  /** `validatorConfig[prop]`. */
  function Lookup(cfg: ClassConfig, prop: string): (r: Option<seq<string>>)
    ensures r.None? <==> prop !in Props(cfg)
    ensures r.Some? ==> exists i :: 0 <= i < |cfg| && cfg[i] == Entry(prop, r.value)
  {
    if cfg == [] then None
    else if cfg[0].prop == prop then Some(cfg[0].validators)
    else Lookup(cfg[1..], prop)
  }

  lemma {:induction false} LookupAt(cfg: ClassConfig, i: nat)
    requires UniqueProps(cfg) && i < |cfg|
    ensures Lookup(cfg, cfg[i].prop) == Some(cfg[i].validators)
  {
    if i > 0 {
      LookupAt(cfg[1..], i - 1);
    }
  }

  /** `{ ...cfg, [prop]: validators }`: an existing property keeps its place
      and gets the new list, a new property is added at the end. */
  function Upsert(cfg: ClassConfig, prop: string, validators: seq<string>): (r: ClassConfig)
    ensures prop in Props(cfg) ==> |r| == |cfg|
    ensures prop !in Props(cfg) ==> r == cfg + [Entry(prop, validators)]
    ensures forall i :: 0 <= i < |cfg| ==> r[i].prop == cfg[i].prop
    ensures forall i :: 0 <= i < |cfg| && cfg[i].prop != prop ==> r[i] == cfg[i]
    ensures forall i :: 0 <= i < |cfg| && cfg[i].prop == prop ==> r[i].validators == validators
  {
    if prop in Props(cfg) then
      seq(|cfg|, i requires 0 <= i < |cfg| =>
        if cfg[i].prop == prop then Entry(prop, validators) else cfg[i])
    else cfg + [Entry(prop, validators)]
  }

  /** After an upsert the property maps to the new list, every other property
      keeps its list, and property names stay unique. */
  lemma UpsertLookup(cfg: ClassConfig, prop: string, validators: seq<string>, other: string)
    requires UniqueProps(cfg)
    ensures UniqueProps(Upsert(cfg, prop, validators))
    ensures Lookup(Upsert(cfg, prop, validators), prop) == Some(validators)
    ensures other != prop ==> Lookup(Upsert(cfg, prop, validators), other) == Lookup(cfg, other)
  {
    UpsertKeepsUnique(cfg, prop, validators);
    UpsertFinds(cfg, prop, validators);
    if other != prop {
      UpsertKeepsOthers(cfg, prop, validators, other);
    }
  }

  lemma UpsertKeepsUnique(cfg: ClassConfig, prop: string, validators: seq<string>)
    requires UniqueProps(cfg)
    ensures UniqueProps(Upsert(cfg, prop, validators))
  {
    var r := Upsert(cfg, prop, validators);
    if prop !in Props(cfg) {
      forall i, j | 0 <= i < j < |r|
        ensures r[i].prop != r[j].prop
      {
        assert Props(cfg)[i] == cfg[i].prop;
      }
    }
  }

  lemma UpsertFinds(cfg: ClassConfig, prop: string, validators: seq<string>)
    requires UniqueProps(cfg)
    ensures Lookup(Upsert(cfg, prop, validators), prop) == Some(validators)
  {
    var r := Upsert(cfg, prop, validators);
    UpsertKeepsUnique(cfg, prop, validators);
    if prop in Props(cfg) {
      var i :| 0 <= i < |cfg| && Props(cfg)[i] == prop;
      LookupAt(r, i);
    } else {
      LookupAt(r, |cfg|);
    }
  }

  lemma UpsertKeepsOthers(cfg: ClassConfig, prop: string, validators: seq<string>, other: string)
    requires UniqueProps(cfg) && other != prop
    ensures Lookup(Upsert(cfg, prop, validators), other) == Lookup(cfg, other)
  {
    var r := Upsert(cfg, prop, validators);
    UpsertKeepsUnique(cfg, prop, validators);
    if other in Props(cfg) {
      var i :| 0 <= i < |cfg| && Props(cfg)[i] == other;
      LookupAt(cfg, i);
      LookupAt(r, i);
    } else {
      forall j | 0 <= j < |r|
        ensures Props(r)[j] != other
      {
        if j < |cfg| {
          assert Props(cfg)[j] == cfg[j].prop;
        }
      }
    }
  }

  /** A second registration on the same property replaces the first list. */
  lemma UpsertReplaces(cfg: ClassConfig, prop: string, first: seq<string>, second: seq<string>)
    ensures Upsert(Upsert(cfg, prop, first), prop, second) == Upsert(cfg, prop, second)
  {
    var once := Upsert(cfg, prop, first);
    UpsertHasProp(cfg, prop, first);
    var twice, direct := Upsert(once, prop, second), Upsert(cfg, prop, second);
    if prop in Props(cfg) {
      forall i | 0 <= i < |cfg|
        ensures twice[i] == direct[i]
      {
        if cfg[i].prop == prop {
          assert twice[i] == Entry(prop, second) == direct[i];
        }
      }
    } else {
      forall i | 0 <= i < |once|
        ensures twice[i] == direct[i]
      {
        if i < |cfg| {
          assert once[i] == cfg[i];
        }
      }
    }
  }

  lemma UpsertHasProp(cfg: ClassConfig, prop: string, validators: seq<string>)
    ensures prop in Props(Upsert(cfg, prop, validators))
  {
    var r := Upsert(cfg, prop, validators);
    if prop in Props(cfg) {
      var i :| 0 <= i < |cfg| && Props(cfg)[i] == prop;
      assert Props(r)[i] == prop;
    } else {
      assert Props(r)[|cfg|] == prop;
    }
  }

  /** The whole dictionary: class name to configuration. */
  type Registry = map<string, ClassConfig>

  /** `registeredValidators[className]`, where a missing class reads as an
      empty configuration when spread. */
  function ConfigOf(reg: Registry, className: string): ClassConfig {
    if className in reg then reg[className] else []
  }

  /** What a property decorator does to the dictionary. */
  function Register(reg: Registry, className: string, prop: string, validator: string): (r: Registry)
    ensures r.Keys == reg.Keys + {className}
    ensures forall c :: c in reg && c != className ==> r[c] == reg[c]
  {
    reg[className := Upsert(ConfigOf(reg, className), prop, [validator])]
  }

  /** Registration sets the property's list to exactly the one validator and
      leaves every other property of the class and every other class alone. */
  lemma RegisterEffect(reg: Registry, className: string, prop: string, validator: string, other: string)
    requires className in reg ==> UniqueProps(reg[className])
    ensures Lookup(Register(reg, className, prop, validator)[className], prop) == Some([validator])
    ensures other != prop ==>
              Lookup(Register(reg, className, prop, validator)[className], other)
              == Lookup(ConfigOf(reg, className), other)
  {
    UpsertLookup(ConfigOf(reg, className), prop, [validator], other);
  }

  /** An object: the name of its constructor and its own properties. */
  datatype JsObject = JsObject(className: string, props: map<string, JsValue>)

  /** `obj[prop]`; a missing property reads as undefined. */
  function Get(obj: JsObject, prop: string): JsValue {
    if prop in obj.props then obj.props[prop] else Undefined
  }

  /** Every registered check of every property passes. */
  predicate Passes(obj: JsObject, cfg: ClassConfig) {
    forall i, j :: 0 <= i < |cfg| && 0 <= j < |cfg[i].validators| ==>
      Check(cfg[i].validators[j], Get(obj, cfg[i].prop))
  }

  /** What `validate(obj)` returns: true for an unregistered class, else the
      conjunction of all registered checks. */
  predicate IsValid(reg: Registry, obj: JsObject) {
    obj.className !in reg || Passes(obj, reg[obj.className])
  }

  /** The global dictionary of registered validators. */
  class ValidatorRegistry {
    var registeredValidators: Registry

    predicate Valid()
      reads this
    {
      forall c :: c in registeredValidators ==> UniqueProps(registeredValidators[c])
    }

    constructor ()
      ensures registeredValidators == map[] && Valid()
    {
      registeredValidators := map[];
    }

    /** `@Required` on property `propName` of class `className`. */
    method Required(className: string, propName: string)
      requires Valid()
      modifies this
      ensures Valid()
      ensures registeredValidators == Register(old(registeredValidators), className, propName, "required")
    {
      UpsertLookup(ConfigOf(registeredValidators, className), propName, ["required"], propName);
      registeredValidators := registeredValidators[className :=
        Upsert(ConfigOf(registeredValidators, className), propName, ["required"])];
    }

    /** `@PositiveNumber` on property `propName` of class `className`. */
    method PositiveNumber(className: string, propName: string)
      requires Valid()
      modifies this
      ensures Valid()
      ensures registeredValidators == Register(old(registeredValidators), className, propName, "positive")
    {
      UpsertLookup(ConfigOf(registeredValidators, className), propName, ["positive"], propName);
      registeredValidators := registeredValidators[className :=
        Upsert(ConfigOf(registeredValidators, className), propName, ["positive"])];
    }

    /** `validate(obj)`: the nested loops over properties and their
        validators; once a check fails the result stays false. */
    method Validate(obj: JsObject) returns (isValid: bool)
      ensures isValid == IsValid(registeredValidators, obj)
    {
      if obj.className !in registeredValidators {
        return true;
      }
      var validatorConfig := registeredValidators[obj.className];
      isValid := true;
      var i := 0;
      while i < |validatorConfig|
        invariant 0 <= i <= |validatorConfig|
        invariant isValid <==> forall i', j :: 0 <= i' < i && 0 <= j < |validatorConfig[i'].validators| ==>
                    Check(validatorConfig[i'].validators[j], Get(obj, validatorConfig[i'].prop))
      {
        var prop := validatorConfig[i].prop;
        var validators := validatorConfig[i].validators;
        var j := 0;
        while j < |validators|
          invariant 0 <= j <= |validators|
          invariant isValid <==>
                      (forall i', j' :: 0 <= i' < i && 0 <= j' < |validatorConfig[i'].validators| ==>
                        Check(validatorConfig[i'].validators[j'], Get(obj, validatorConfig[i'].prop)))
                      && (forall j' :: 0 <= j' < j ==> Check(validators[j'], Get(obj, prop)))
        {
          var validator := validators[j];
          if validator == "required" {
            isValid := isValid && Truthy(Get(obj, prop));
          } else if validator == "positive" {
            isValid := isValid && Positive(Get(obj, prop));
          }
          j := j + 1;
        }
        i := i + 1;
      }
    }
  }

  /** The `Course` class of the example: `title` carries `@Required`, and
      `price` carries `@PositiveNumber` above `@Required`. Decorators on one
      property run bottom-up, so `@Required` registers first and
      `@PositiveNumber` then replaces its list. */
  const CourseRegistry: Registry :=
    Register(Register(Register(map[], "Course", "title", "required"),
                      "Course", "price", "required"),
             "Course", "price", "positive")

  function Course(title: string, price: real): JsObject {
    JsObject("Course", map["title" := Str(title), "price" := Num(price)])
  }

  /** The registered configuration of Course, in declaration order. */
  lemma CourseConfig()
    ensures CourseRegistry == map["Course" := [Entry("title", ["required"]), Entry("price", ["positive"])]]
  {
    var title := [Entry("title", ["required"])];
    var empty: Registry := map[];
    assert Props([]) == [];
    assert Upsert([], "title", ["required"]) == [] + title == title;
    assert ConfigOf(empty, "Course") == [];
    assert Register(empty, "Course", "title", "required") == map["Course" := title];
    assert Props(title) == ["title"];
    assert "price" != "title";
    var both := title + [Entry("price", ["required"])];
    assert Register(map["Course" := title], "Course", "price", "required") == map["Course" := both];
    assert Props(both) == ["title", "price"];
    var last := Upsert(both, "price", ["positive"]);
    assert last[0] == Entry("title", ["required"]);
    assert last[1] == Entry("price", ["positive"]);
    assert last == [Entry("title", ["required"]), Entry("price", ["positive"])];
  }

  /** The example: `new Course("TypeScript基础", 99)` validates, and
      `new Course("", -10)` does not. */
  lemma CourseExamples()
    ensures IsValid(CourseRegistry, Course("TypeScript基础", 99.0))
    ensures !IsValid(CourseRegistry, Course("", -10.0))
  {
    CourseConfig();
    CourseConfigPasses("TypeScript基础", 99.0);
    CourseConfigPasses("", -10.0);
  }

  /** Under the Course configuration a course passes iff its title is
      non-empty and its price is positive. */
  lemma CourseConfigPasses(title: string, price: real)
    ensures var cfg := [Entry("title", ["required"]), Entry("price", ["positive"])];
      Passes(Course(title, price), cfg) <==> title != "" && price > 0.0
  {
    var cfg := [Entry("title", ["required"]), Entry("price", ["positive"])];
    var obj := Course(title, price);
    assert Get(obj, "title") == Str(title) && Get(obj, "price") == Num(price);
    assert Check("required", Str(title)) <==> title != "";
    assert Check("positive", Num(price)) <==> price > 0.0;
    if Passes(obj, cfg) {
      assert Check(cfg[0].validators[0], Get(obj, cfg[0].prop));
      assert Check(cfg[1].validators[0], Get(obj, cfg[1].prop));
    }
  }

  /** The example run through the registry: the three decorator applications
      of the class declaration, then the two validations. */
  method DemonstrateDecorators() returns (first: bool, second: bool)
    ensures first && !second
  {
    var registry := new ValidatorRegistry();
    registry.Required("Course", "title");
    registry.Required("Course", "price");
    registry.PositiveNumber("Course", "price");
    assert registry.registeredValidators == CourseRegistry;
    CourseExamples();
    first := registry.Validate(Course("TypeScript基础", 99.0));
    second := registry.Validate(Course("", -10.0));
  }
}
