/**
 * The basic extraction utilities of the type challenges (extraction.ts),
 * read as value-level operations: a union type is a finite set of atoms,
 * an object type is a map from property names to the union of its
 * property's type.
 */
module Extraction {

  /** The members a union can hold here: the primitive types `string` and
      `number`, string, number and boolean literals, the `object` type and
      `unknown`. `boolean` is the union `true | false`. */
  datatype Atom =
    | StringType
    | NumberType
    | StrLit(s: string)
    | NumLit(n: int)
    | BoolLit(b: bool)
    | ObjectType
    | UnknownType

  /** A union type; the empty set is `never`. */
  type Union = set<Atom>

  /** An object type: each property with the union of its value type. */
  type ObjectShape = map<string, Union>

  const Boolean: Union := {BoolLit(true), BoolLit(false)}

  /** The union of string literals for a set of property names, as written
      in a `K extends keyof T` argument. */
  function Keys(names: set<string>): (r: Union)
    ensures forall p :: StrLit(p) in r <==> p in names
    ensures forall a :: a in r ==> a.StrLit?
  {
    set p | p in names :: StrLit(p)
  }

  /** `keyof T`. */
  function KeyOf(t: ObjectShape): (r: Union)
    ensures forall p :: StrLit(p) in r <==> p in t
  {
    Keys(t.Keys)
  }

  /** A single member `a` of a union is assignable to the union `u`: `a` is
      itself a member, `u` includes `unknown`, or `a` is a string (number)
      literal and `u` includes `string` (`number`). */
  predicate AssignableAtom(a: Atom, u: Union) {
    a in u
    || UnknownType in u
    || (a.StrLit? && StringType in u)
    || (a.NumLit? && NumberType in u)
  }

  /** `T extends U` for a whole union T in a position where it does not
      distribute: every member of T is assignable to U (so `never` extends
      everything). */
  predicate Extends(t: Union, u: Union) {
    forall a :: a in t ==> AssignableAtom(a, u)
  }

  /** A member of T that the compiler drops from the union because another
      member of T already covers it: a string literal beside `string`, a
      number literal beside `number`, anything beside `unknown`. */
  predicate Subsumed(a: Atom, t: Union) {
    || (a.StrLit? && StringType in t)
    || (a.NumLit? && NumberType in t)
    || (a != UnknownType && UnknownType in t)
  }

  /** A union as the compiler writes it: no member covered by another. */
  predicate Normalized(t: Union) {
    forall a :: a in t ==> !Subsumed(a, t)
  }

  /** The reduced form of a union (`string | "a"` is `string`,
      `unknown | X` is `unknown`): it drops only covered members, so every
      member of T is still assignable to it. */
  function Normalize(t: Union): (r: Union)
    ensures r <= t
    ensures Normalized(r)
    ensures forall a :: a in t ==> AssignableAtom(a, r)
  {
    set a | a in t && !Subsumed(a, t)
  }

  /** A union of literals is already reduced. */
  lemma NormalizeLiterals(t: Union)
    requires LiteralUnion(t)
    ensures Normalize(t) == t
  {
  }

  /** Reducing a union twice is reducing it once. */
  lemma NormalizeIdempotent(t: Union)
    ensures Normalize(Normalize(t)) == Normalize(t)
  {
    var n := Normalize(t);
    forall a | a in n
      ensures !Subsumed(a, n)
    {
    }
  }

  /** `MyExclude<T, U> = T extends U ? never : T`, which distributes over
      the members of T as the compiler writes it: keep the members not
      assignable to U. */
  function MyExclude(t: Union, u: Union): (r: Union)
    ensures r <= Normalize(t)
    ensures forall a :: a in Normalize(t) ==> (a in r <==> !AssignableAtom(a, u))
  {
    set a | a in Normalize(t) && !AssignableAtom(a, u)
  }

  /** `MyExtract<T, U> = T extends U ? T : never`, also distributive: keep
      the members assignable to U. */
  function MyExtract(t: Union, u: Union): (r: Union)
    ensures r <= Normalize(t)
    ensures forall a :: a in Normalize(t) ==> (a in r <==> AssignableAtom(a, u))
  {
    set a | a in Normalize(t) && AssignableAtom(a, u)
  }

  /** A union of literals only: no `string`, `number` or `unknown`, so a
      member is assignable to it exactly when it is one of its members. */
  predicate LiteralUnion(u: Union) {
    StringType !in u && NumberType !in u && UnknownType !in u
  }

  /** For a union of literals U, MyExclude is set difference. */
  lemma ExcludeIsDifference(t: Union, u: Union)
    requires LiteralUnion(u)
    ensures MyExclude(t, u) == Normalize(t) - u
  {
    forall a | a in Normalize(t)
      ensures a in MyExclude(t, u) <==> a !in u
    {
      assert AssignableAtom(a, u) <==> a in u;
    }
  }

  /** For a union of literals U, MyExtract is set intersection. */
  lemma ExtractIsIntersection(t: Union, u: Union)
    requires LiteralUnion(u)
    ensures MyExtract(t, u) == Normalize(t) * u
  {
    forall a | a in Normalize(t)
      ensures a in MyExtract(t, u) <==> a in u
    {
      assert AssignableAtom(a, u) <==> a in u;
    }
  }

  /** MyExclude and MyExtract split T in two: they share no member and
      together give back T as the compiler writes it. */
  lemma ExcludeExtractPartition(t: Union, u: Union)
    ensures MyExclude(t, u) * MyExtract(t, u) == {}
    ensures MyExclude(t, u) + MyExtract(t, u) == Normalize(t)
  {
    var ex, in_ := MyExclude(t, u), MyExtract(t, u);
    forall a | a in ex
      ensures a !in in_
    {
    }
    assert ex * in_ == {};
  }

  /** Two ways of writing the same union give the same answers, e.g.
      `MyExtract<string | "a", "a">` and `MyExtract<string, "a">` are both
      `never`. */
  lemma SameUnionSameAnswer(t: Union, t': Union, u: Union)
    requires Normalize(t) == Normalize(t')
    ensures MyExclude(t, u) == MyExclude(t', u)
    ensures MyExtract(t, u) == MyExtract(t', u)
  {
  }

  /** The case above: `MyExtract<string | "a", "a">` is `never`. */
  lemma ExtractFromString()
    ensures MyExtract({StringType, StrLit("a")}, {StrLit("a")}) == {}
  {
    assert Normalize({StringType, StrLit("a")}) == {StringType};
    assert !AssignableAtom(StringType, {StrLit("a")});
  }

  /** `MyPick<T, K extends keyof T> = { [P in K]: T[P] }`. */
  function MyPick(t: ObjectShape, k: set<string>): (r: ObjectShape)
    requires k <= t.Keys
    ensures r.Keys == k
  {
    map p | p in k :: t[p]
  }

  /** `MyOmit<T, K extends keyof T> = { [P in Exclude<keyof T, K>]: T[P] }`:
      the property names are those of `keyof T` that MyExclude keeps. */
  function MyOmit(t: ObjectShape, k: set<string>): (r: ObjectShape)
    requires k <= t.Keys
    ensures r.Keys <= t.Keys - k
    ensures forall p :: p in r ==> r[p] == t[p]
  {
    map p | p in t && StrLit(p) in MyExclude(KeyOf(t), Keys(k)) :: t[p]
  }

  /** MyPick keeps exactly the keys K, each with T's type. */
  lemma PickKeepsValues(t: ObjectShape, k: set<string>)
    requires k <= t.Keys
    ensures MyPick(t, k).Keys == k
    ensures forall p :: p in k ==> MyPick(t, k)[p] == t[p]
  {
  }

  /** MyOmit has exactly the keys of T outside K, each with T's type. */
  lemma OmitKeepsValues(t: ObjectShape, k: set<string>)
    requires k <= t.Keys
    ensures MyOmit(t, k).Keys == t.Keys - k
    ensures forall p :: p in MyOmit(t, k) ==> MyOmit(t, k)[p] == t[p]
  {
    var kept := MyExclude(KeyOf(t), Keys(k));
    ExcludeIsDifference(KeyOf(t), Keys(k));
    NormalizeLiterals(KeyOf(t));
    forall p | p in t
      ensures p in MyOmit(t, k) <==> p !in k
    {
      assert StrLit(p) in kept <==> StrLit(p) !in Keys(k);
    }
  }

  /** Picking K and omitting K split T's properties in two: no key is in
      both, and together they give back T. */
  lemma PickOmitPartition(t: ObjectShape, k: set<string>)
    requires k <= t.Keys
    ensures MyPick(t, k).Keys * MyOmit(t, k).Keys == {}
    ensures MyPick(t, k) + MyOmit(t, k) == t
  {
    OmitKeepsValues(t, k);
    var both := MyPick(t, k) + MyOmit(t, k);
    assert both.Keys == t.Keys;
    forall p | p in t
      ensures both[p] == t[p]
    {
    }
  }

  /** `PickByType<T, U> = { [P in keyof T as T[P] extends U ? P : never]: T[P] }`:
      a property survives when its whole type is assignable to U. */
  function PickByType(t: ObjectShape, u: Union): (r: ObjectShape)
    ensures forall p :: p in r <==> p in t && Extends(t[p], u)
    ensures forall p :: p in r ==> r[p] == t[p]
  {
    map p | p in t && Extends(t[p], u) :: t[p]
  }

  /** PickByType is MyPick of exactly the keys whose types extend U. */
  lemma PickByTypeIsPick(t: ObjectShape, u: Union)
    ensures var matching := set p | p in t && Extends(t[p], u);
      matching <= t.Keys && PickByType(t, u) == MyPick(t, matching)
  {
  }

  /** Every type is assignable to `unknown`, so PickByType with `unknown`
      keeps the whole object type. */
  lemma PickByTypeUnknown(t: ObjectShape)
    ensures PickByType(t, {UnknownType}) == t
  {
    assert PickByType(t, {UnknownType}).Keys == t.Keys;
  }

  // Worked examples from the module's comments and exercises.

  lemma ExcludeExample()
    ensures MyExclude({StrLit("a"), StrLit("b"), StrLit("c")}, {StrLit("a")}) == {StrLit("b"), StrLit("c")}
  {
    NormalizeLiterals({StrLit("a"), StrLit("b"), StrLit("c")});
    ExcludeIsDifference({StrLit("a"), StrLit("b"), StrLit("c")}, {StrLit("a")});
  }

  lemma ExtractExample()
    ensures MyExtract({StrLit("a"), StrLit("b"), StrLit("c")}, {StrLit("a"), StrLit("f")}) == {StrLit("a")}
  {
    NormalizeLiterals({StrLit("a"), StrLit("b"), StrLit("c")});
    ExtractIsIntersection({StrLit("a"), StrLit("b"), StrLit("c")}, {StrLit("a"), StrLit("f")});
  }

  const Status: Union := {StrLit("draft"), StrLit("published"), StrLit("archived"), StrLit("deleted")}

  /** `ActiveStatus = MyExclude<Status, 'deleted' | 'archived'>`. */
  lemma ActiveStatusExample()
    ensures MyExclude(Status, {StrLit("deleted"), StrLit("archived")}) == {StrLit("draft"), StrLit("published")}
  {
    NormalizeLiterals(Status);
    ExcludeIsDifference(Status, {StrLit("deleted"), StrLit("archived")});
  }

  const HttpMethod: Union := {StrLit("GET"), StrLit("POST"), StrLit("PUT"), StrLit("DELETE"),
                              StrLit("PATCH"), StrLit("HEAD"), StrLit("OPTIONS")}

  /** `ModifyMethods = MyExtract<HttpMethod, 'POST' | 'PUT' | 'PATCH'>`. */
  lemma ModifyMethodsExample()
    ensures MyExtract(HttpMethod, {StrLit("POST"), StrLit("PUT"), StrLit("PATCH")})
         == {StrLit("POST"), StrLit("PUT"), StrLit("PATCH")}
  {
    NormalizeLiterals(HttpMethod);
    ExtractIsIntersection(HttpMethod, {StrLit("POST"), StrLit("PUT"), StrLit("PATCH")});
  }

  const User: ObjectShape := map["id" := {NumberType}, "name" := {StringType}, "email" := {StringType},
                                 "age" := {NumberType}, "address" := {StringType}]

  /** `UserIdentity = MyPick<User, 'id' | 'name'>`. */
  lemma UserIdentityExample()
    ensures MyPick(User, {"id", "name"}) == map["id" := {NumberType}, "name" := {StringType}]
  {
  }

  const ApiResponse: ObjectShape := map["data" := {UnknownType}, "status" := {NumberType},
                                        "message" := {StringType}, "timestamp" := {NumberType},
                                        "debug" := Boolean]

  /** `ClientResponse = MyOmit<ApiResponse, 'debug' | 'timestamp'>`. */
  lemma ClientResponseExample()
    ensures MyOmit(ApiResponse, {"debug", "timestamp"})
         == map["data" := {UnknownType}, "status" := {NumberType}, "message" := {StringType}]
  {
    var r := MyOmit(ApiResponse, {"debug", "timestamp"});
    OmitKeepsValues(ApiResponse, {"debug", "timestamp"});
    assert r.Keys == {"data", "status", "message"};
  }

  const Mixed: ObjectShape := map["name" := {StringType}, "count" := {NumberType},
                                  "isActive" := Boolean, "data" := {ObjectType}]

  /** `StringProps = PickByType<Mixed, string>` is `{ name: string }`. */
  lemma StringPropsExample()
    ensures PickByType(Mixed, {StringType}) == map["name" := {StringType}]
  {
    assert !AssignableAtom(NumberType, {StringType});
    assert !AssignableAtom(BoolLit(true), {StringType});
    assert !AssignableAtom(ObjectType, {StringType});
    assert PickByType(Mixed, {StringType}).Keys == {"name"};
  }

  const FormData: ObjectShape := map["username" := {StringType}, "password" := {StringType},
                                     "email" := {StringType}, "age" := {NumberType},
                                     "newsletter" := Boolean, "preferences" := {ObjectType}]

  /** `RequiredFields = MyPick<FormData, 'username' | 'password' | 'email'>`. */
  lemma RequiredFieldsExample()
    ensures MyPick(FormData, {"username", "password", "email"})
         == map["username" := {StringType}, "password" := {StringType}, "email" := {StringType}]
  {
  }

  /** `SafeFormData = MyOmit<FormData, 'password'>`. */
  lemma SafeFormDataExample()
    ensures MyOmit(FormData, {"password"}).Keys == {"username", "email", "age", "newsletter", "preferences"}
  {
    OmitKeepsValues(FormData, {"password"});
  }

  /** `BooleanFields = PickByType<FormData, boolean>` is `{ newsletter: boolean }`. */
  lemma BooleanFieldsExample()
    ensures PickByType(FormData, Boolean) == map["newsletter" := Boolean]
  {
    assert !AssignableAtom(StringType, Boolean);
    assert !AssignableAtom(NumberType, Boolean);
    assert !AssignableAtom(ObjectType, Boolean);
    assert Extends(Boolean, Boolean);
    assert PickByType(FormData, Boolean).Keys == {"newsletter"};
  }
}
