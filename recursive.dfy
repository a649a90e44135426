/**
 * The recursive mapped types of the intermediate type challenges
 * (recursive.ts), read as functions on a tree of object shapes: a property
 * type is a primitive leaf, a function, or a nested object type whose
 * properties carry the `?` (optional) and `readonly` modifiers.
 */
module Recursive {
  import opened Optional

  /** A property type: a primitive (named by its written form, such as
      `string` or `'info' | 'warn' | 'error'`), a function type, or an
      object type. */
  datatype Shape =
    | Leaf(name: string)
    | Func
    | Obj(fields: map<string, Field>)

  /** One property of an object type with its modifiers. */
  datatype Field = Field(shape: Shape, optional: bool, readonly: bool)

  /** `T[P] extends object`: functions and object types, not primitives. */
  predicate IsObject(s: Shape)
    ensures IsObject(s) <==> !s.Leaf?
  {
    s.Obj? || s.Func?
  }

  /** The guard the three transformations put on each property type,
      `T[P] extends object ? (T[P] extends Function ? T[P] : Deep<T[P]>) : T[P]`:
      they descend into a property exactly when its type is an object type
      that is not a function. */
  predicate Descends(p: Shape)
    ensures Descends(p) <==> p.Obj?
  {
    IsObject(p) && !p.Func?
  }

  /** `keyof T` with each property: a function type has no keys. */
  function FieldsOf(s: Shape): map<string, Field> {
    if s.Obj? then s.fields else map[]
  }

  /** `DeepReadonly<T>`: every property becomes readonly and keeps its `?`;
      an object-typed property is made DeepReadonly in turn, while function
      and primitive properties are kept as they are. As a homomorphic
      mapped type it leaves a primitive T unchanged, and turns a function
      type T, which has no keys, into `{}`. */
  function DeepReadonly(s: Shape): (r: Shape)
    ensures s.Leaf? ==> r == s
    ensures s.Func? ==> r == Obj(map[])
    ensures r.Obj? <==> IsObject(s)
    ensures r.Obj? ==> r.fields.Keys == FieldsOf(s).Keys
    ensures r.Obj? ==> forall k :: k in r.fields ==>
      r.fields[k].readonly && r.fields[k].optional == FieldsOf(s)[k].optional
    ensures r.Obj? ==> forall k :: k in r.fields && !Descends(FieldsOf(s)[k].shape) ==>
      r.fields[k].shape == FieldsOf(s)[k].shape
  {
    match s
    case Obj(fs) =>
      Obj(map k | k in fs ::
        Field(if Descends(fs[k].shape) then DeepReadonly(fs[k].shape) else fs[k].shape, fs[k].optional, true))
    case Func => Obj(map[])
    case Leaf(_) => s
  }

  /** `DeepPartial<T>`: every property becomes optional, at every depth;
      `readonly` is kept, and so are function and primitive properties. */
  function DeepPartial(s: Shape): (r: Shape)
    ensures s.Leaf? ==> r == s
    ensures s.Func? ==> r == Obj(map[])
    ensures r.Obj? <==> IsObject(s)
    ensures r.Obj? ==> r.fields.Keys == FieldsOf(s).Keys
    ensures r.Obj? ==> forall k :: k in r.fields ==>
      r.fields[k].optional && r.fields[k].readonly == FieldsOf(s)[k].readonly
    ensures r.Obj? ==> forall k :: k in r.fields && !Descends(FieldsOf(s)[k].shape) ==>
      r.fields[k].shape == FieldsOf(s)[k].shape
  {
    match s
    case Obj(fs) =>
      Obj(map k | k in fs ::
        Field(if Descends(fs[k].shape) then DeepPartial(fs[k].shape) else fs[k].shape, true, fs[k].readonly))
    case Func => Obj(map[])
    case Leaf(_) => s
  }

  /** `DeepRequired<T>` (the `-?` modifier): no property is optional, at
      every depth; `readonly` is kept, and so are function and primitive
      properties. */
  function DeepRequired(s: Shape): (r: Shape)
    ensures s.Leaf? ==> r == s
    ensures s.Func? ==> r == Obj(map[])
    ensures r.Obj? <==> IsObject(s)
    ensures r.Obj? ==> r.fields.Keys == FieldsOf(s).Keys
    ensures r.Obj? ==> forall k :: k in r.fields ==>
      !r.fields[k].optional && r.fields[k].readonly == FieldsOf(s)[k].readonly
    ensures r.Obj? ==> forall k :: k in r.fields && !Descends(FieldsOf(s)[k].shape) ==>
      r.fields[k].shape == FieldsOf(s)[k].shape
  {
    match s
    case Obj(fs) =>
      Obj(map k | k in fs ::
        Field(if Descends(fs[k].shape) then DeepRequired(fs[k].shape) else fs[k].shape, false, fs[k].readonly))
    case Func => Obj(map[])
    case Leaf(_) => s
  }

  /** Every property at every depth is readonly. */
  predicate ReadonlyEverywhere(s: Shape) {
    match s
    case Obj(fs) => forall k :: k in fs ==> fs[k].readonly && ReadonlyEverywhere(fs[k].shape)
    case _ => true
  }

  /** Every property at every depth is optional. */
  predicate OptionalEverywhere(s: Shape) {
    match s
    case Obj(fs) => forall k :: k in fs ==> fs[k].optional && OptionalEverywhere(fs[k].shape)
    case _ => true
  }

  /** No property at any depth is optional. */
  predicate RequiredEverywhere(s: Shape) {
    match s
    case Obj(fs) => forall k :: k in fs ==> !fs[k].optional && RequiredEverywhere(fs[k].shape)
    case _ => true
  }

  /** The shape with every modifier cleared: what the three transformations
      must leave alone. */
  function Erase(s: Shape): Shape {
    match s
    case Obj(fs) => Obj(map k | k in fs :: Field(Erase(fs[k].shape), false, false))
    case _ => s
  }

  /** What a homomorphic mapped type keeps of T before any modifier is
      touched: T itself, except that a function type has no keys and
      becomes `{}`. */
  function Keyed(s: Shape): Shape {
    if s.Func? then Obj(map[]) else s
  }

  lemma {:induction false} DeepReadonlyEverywhere(s: Shape)
    ensures ReadonlyEverywhere(DeepReadonly(s))
  {
    match s
    case Obj(fs) =>
      forall k | k in fs && Descends(fs[k].shape)
        ensures ReadonlyEverywhere(DeepReadonly(fs[k].shape))
      {
        DeepReadonlyEverywhere(fs[k].shape);
      }
    case _ =>
  }

  lemma {:induction false} DeepPartialEverywhere(s: Shape)
    ensures OptionalEverywhere(DeepPartial(s))
  {
    match s
    case Obj(fs) =>
      forall k | k in fs && Descends(fs[k].shape)
        ensures OptionalEverywhere(DeepPartial(fs[k].shape))
      {
        DeepPartialEverywhere(fs[k].shape);
      }
    case _ =>
  }

  lemma {:induction false} DeepRequiredEverywhere(s: Shape)
    ensures RequiredEverywhere(DeepRequired(s))
  {
    match s
    case Obj(fs) =>
      forall k | k in fs && Descends(fs[k].shape)
        ensures RequiredEverywhere(DeepRequired(fs[k].shape))
      {
        DeepRequiredEverywhere(fs[k].shape);
      }
    case _ =>
  }

  // The three transformations change modifiers only: the keys, the
  // primitives and the functions stay where they were.

  lemma {:induction false} ReadonlyShapeKept(s: Shape)
    ensures Erase(DeepReadonly(s)) == Erase(Keyed(s))
  {
    match s
    case Obj(fs) =>
      forall k | k in fs && Descends(fs[k].shape)
        ensures Erase(DeepReadonly(fs[k].shape)) == Erase(fs[k].shape)
      {
        ReadonlyShapeKept(fs[k].shape);
      }
      assert Erase(DeepReadonly(s)).fields == Erase(s).fields;
    case Func =>
      assert Erase(DeepReadonly(s)).fields == map[];
    case Leaf(_) =>
  }

  lemma {:induction false} PartialShapeKept(s: Shape)
    ensures Erase(DeepPartial(s)) == Erase(Keyed(s))
  {
    match s
    case Obj(fs) =>
      forall k | k in fs && Descends(fs[k].shape)
        ensures Erase(DeepPartial(fs[k].shape)) == Erase(fs[k].shape)
      {
        PartialShapeKept(fs[k].shape);
      }
      assert Erase(DeepPartial(s)).fields == Erase(s).fields;
    case Func =>
      assert Erase(DeepPartial(s)).fields == map[];
    case Leaf(_) =>
  }

  lemma {:induction false} RequiredShapeKept(s: Shape)
    ensures Erase(DeepRequired(s)) == Erase(Keyed(s))
  {
    match s
    case Obj(fs) =>
      forall k | k in fs && Descends(fs[k].shape)
        ensures Erase(DeepRequired(fs[k].shape)) == Erase(fs[k].shape)
      {
        RequiredShapeKept(fs[k].shape);
      }
      assert Erase(DeepRequired(s)).fields == Erase(s).fields;
    case Func =>
      assert Erase(DeepRequired(s)).fields == map[];
    case Leaf(_) =>
  }

  lemma {:induction false} DeepReadonlyIdempotent(s: Shape)
    ensures DeepReadonly(DeepReadonly(s)) == DeepReadonly(s)
  {
    match s
    case Obj(fs) =>
      forall k | k in fs && Descends(fs[k].shape)
        ensures DeepReadonly(DeepReadonly(fs[k].shape)) == DeepReadonly(fs[k].shape)
      {
        DeepReadonlyIdempotent(fs[k].shape);
      }
      assert DeepReadonly(DeepReadonly(s)).fields == DeepReadonly(s).fields;
    case Func =>
      assert DeepReadonly(DeepReadonly(s)).fields == map[];
    case Leaf(_) =>
  }

  /** Making everything required undoes DeepPartial: the result no longer
      depends on which properties were optional before. */
  lemma {:induction false} RequiredAfterPartial(s: Shape)
    ensures DeepRequired(DeepPartial(s)) == DeepRequired(s)
  {
    match s
    case Obj(fs) =>
      forall k | k in fs && Descends(fs[k].shape)
        ensures DeepRequired(DeepPartial(fs[k].shape)) == DeepRequired(fs[k].shape)
      {
        RequiredAfterPartial(fs[k].shape);
      }
      assert DeepRequired(DeepPartial(s)).fields == DeepRequired(s).fields;
    case Func =>
      assert DeepRequired(DeepPartial(s)).fields == map[];
    case Leaf(_) =>
  }

  /** And the other way round: DeepPartial forgets DeepRequired. */
  lemma {:induction false} PartialAfterRequired(s: Shape)
    ensures DeepPartial(DeepRequired(s)) == DeepPartial(s)
  {
    match s
    case Obj(fs) =>
      forall k | k in fs && Descends(fs[k].shape)
        ensures DeepPartial(DeepRequired(fs[k].shape)) == DeepPartial(fs[k].shape)
      {
        PartialAfterRequired(fs[k].shape);
      }
      assert DeepPartial(DeepRequired(s)).fields == DeepPartial(s).fields;
    case Func =>
      assert DeepPartial(DeepRequired(s)).fields == map[];
    case Leaf(_) =>
  }

  /** `DeepMerge<T, U>`: the properties of both; a property only in T keeps
      T's type, one only in U keeps U's; one in both is merged when both
      types are objects, and otherwise takes U's type. The key set
      `keyof T | keyof U` is not homomorphic, so no modifier is carried
      over. Both arguments are object types: the recursion only reaches
      pairs that both extend `object`, and `mergeConfigs` constrains its
      `T` to `object` and its `U` to `DeepPartial<T>`. */
  function DeepMerge(t: Shape, u: Shape): (r: Shape)
    requires IsObject(t) && IsObject(u)
    decreases t
    ensures r.Obj? && r.fields.Keys == FieldsOf(t).Keys + FieldsOf(u).Keys
  {
    var ft := if t.Obj? then t.fields else map[];
    var fu := FieldsOf(u);
    Obj(map k | k in ft.Keys + fu.Keys ::
      Field(if k in ft && k in fu then
              (if IsObject(ft[k].shape) && IsObject(fu[k].shape) then DeepMerge(ft[k].shape, fu[k].shape)
               else fu[k].shape)
            else if k in ft then ft[k].shape
            else fu[k].shape,
            false, false))
  }

  /** The type DeepMerge gives one property, case by case. */
  lemma DeepMergeAt(t: Shape, u: Shape, k: string)
    requires IsObject(t) && IsObject(u)
    requires k in FieldsOf(t) || k in FieldsOf(u)
    ensures var ft, fu, r := FieldsOf(t), FieldsOf(u), DeepMerge(t, u).fields[k];
      && !r.optional && !r.readonly
      && (k !in fu ==> r.shape == ft[k].shape)
      && (k !in ft ==> r.shape == fu[k].shape)
      && (k in ft && k in fu && IsObject(ft[k].shape) && IsObject(fu[k].shape) ==>
            r.shape == DeepMerge(ft[k].shape, fu[k].shape))
      && (k in ft && k in fu && !(IsObject(ft[k].shape) && IsObject(fu[k].shape)) ==>
            r.shape == fu[k].shape)
  {
  }

  /** The type at a path of property names, if the path exists. */
  function At(s: Shape, path: seq<string>): Option<Shape>
    decreases |path|
  {
    if path == [] then Some(s)
    else if path[0] in FieldsOf(s) then At(FieldsOf(s)[path[0]].shape, path[1..])
    else None
  }

  /** What U says about a primitive wins at every depth: wherever U has a
      primitive type, the merged type has the same primitive there. */
  lemma {:induction false} MergeKeepsLeavesOfU(t: Shape, u: Shape, path: seq<string>, name: string)
    requires IsObject(t) && IsObject(u)
    requires path != [] && At(u, path) == Some(Leaf(name))
    ensures At(DeepMerge(t, u), path) == Some(Leaf(name))
    decreases |path|
  {
    var k, rest := path[0], path[1..];
    var ft, fu := FieldsOf(t), FieldsOf(u);
    assert k in fu;
    var v := fu[k].shape;
    DeepMergeAt(t, u, k);
    var merged := DeepMerge(t, u).fields[k].shape;
    if rest == [] {
      assert v == Leaf(name);
    } else {
      assert v.Obj?;
      if k in ft && IsObject(ft[k].shape) {
        assert merged == DeepMerge(ft[k].shape, v);
        MergeKeepsLeavesOfU(ft[k].shape, v, rest, name);
      } else {
        assert merged == v;
      }
    }
  }

  // Worked examples from the module's comments and exercises.

  function Prop(s: Shape): Field {
    Field(s, false, false)
  }

  const Str := Leaf("string")
  const Num := Leaf("number")

  /** `DefaultConfig` of the merge exercise. */
  const DefaultConfig := Obj(map[
    "api" := Prop(Obj(map["url" := Prop(Str), "version" := Prop(Str)])),
    "logging" := Prop(Obj(map["level" := Prop(Leaf("'info' | 'warn' | 'error'"))]))])

  /** `UserConfig` of the merge exercise. */
  const UserConfig := Obj(map[
    "api" := Prop(Obj(map["url" := Prop(Str), "timeout" := Prop(Num)])),
    "logging" := Prop(Obj(map["path" := Prop(Str)]))])

  /** `MergedConfig` as the comment after it lists it. */
  const MergedConfig := Obj(map[
    "api" := Prop(Obj(map["url" := Prop(Str), "version" := Prop(Str), "timeout" := Prop(Num)])),
    "logging" := Prop(Obj(map["level" := Prop(Leaf("'info' | 'warn' | 'error'")), "path" := Prop(Str)]))])

  lemma MergedConfigExample()
    ensures DeepMerge(DefaultConfig, UserConfig) == MergedConfig
  {
    var r := DeepMerge(DefaultConfig, UserConfig).fields;
    MergedApi();
    MergedLogging();
    DeepMergeAt(DefaultConfig, UserConfig, "api");
    DeepMergeAt(DefaultConfig, UserConfig, "logging");
    assert r.Keys == {"api", "logging"};
    assert r["api"] == MergedConfig.fields["api"];
    assert r["logging"] == MergedConfig.fields["logging"];
    TwoKeys(r, "api", "logging");
    TwoKeys(MergedConfig.fields, "api", "logging");
  }

  lemma ThreeKeys(m: map<string, Field>, a: string, b: string, c: string)
    requires m.Keys == {a, b, c}
    ensures m == map[a := m[a], b := m[b], c := m[c]]
  {
  }

  lemma TwoKeys(m: map<string, Field>, a: string, b: string)
    requires m.Keys == {a, b}
    ensures m == map[a := m[a], b := m[b]]
  {
  }

  lemma MergedApi()
    ensures DeepMerge(DefaultConfig.fields["api"].shape, UserConfig.fields["api"].shape)
         == MergedConfig.fields["api"].shape
  {
    var t, u := DefaultConfig.fields["api"].shape, UserConfig.fields["api"].shape;
    var r := DeepMerge(t, u).fields;
    DeepMergeAt(t, u, "url");
    DeepMergeAt(t, u, "version");
    DeepMergeAt(t, u, "timeout");
    assert r.Keys == {"url", "version", "timeout"};
    ThreeKeys(r, "url", "version", "timeout");
  }

  lemma MergedLogging()
    ensures DeepMerge(DefaultConfig.fields["logging"].shape, UserConfig.fields["logging"].shape)
         == MergedConfig.fields["logging"].shape
  {
    var r := DeepMerge(DefaultConfig.fields["logging"].shape, UserConfig.fields["logging"].shape);
    assert r.fields == MergedConfig.fields["logging"].shape.fields;
  }

  /** `DeepReadonly<{ a: { b: string } }>` is
      `{ readonly a: { readonly b: string } }`. */
  lemma DeepReadonlyExample()
    ensures DeepReadonly(Obj(map["a" := Prop(Obj(map["b" := Prop(Str)]))]))
         == Obj(map["a" := Field(Obj(map["b" := Field(Str, false, true)]), false, true)])
  {
    var inner := Obj(map["b" := Prop(Str)]);
    assert DeepReadonly(inner) == Obj(map["b" := Field(Str, false, true)]);
  }

  /** `DeepPartial<{ a: { b: string } }>` is `{ a?: { b?: string } }`. */
  lemma DeepPartialExample()
    ensures DeepPartial(Obj(map["a" := Prop(Obj(map["b" := Prop(Str)]))]))
         == Obj(map["a" := Field(Obj(map["b" := Field(Str, true, false)]), true, false)])
  {
    var inner := Obj(map["b" := Prop(Str)]);
    assert DeepPartial(inner) == Obj(map["b" := Field(Str, true, false)]);
  }

  /** `DeepRequired<{ a?: { b?: string } }>` is `{ a: { b: string } }`. */
  lemma DeepRequiredExample()
    ensures DeepRequired(Obj(map["a" := Field(Obj(map["b" := Field(Str, true, false)]), true, false)]))
         == Obj(map["a" := Prop(Obj(map["b" := Prop(Str)]))])
  {
    var inner := Obj(map["b" := Field(Str, true, false)]);
    assert DeepRequired(inner) == Obj(map["b" := Prop(Str)]);
  }
}
