/**
 * The generic helpers of src/examples/3-generics.ts: the identity function,
 * a box holding one value, a length accessor, an immutable key/value pair,
 * a partial update of a to-do record, and a query builder that collects
 * predicates and filters a list by their conjunction.
 */
module Generics {
  import opened Optional

  function Identity<T>(arg: T): (r: T)
    ensures r == arg
  {
    arg
  }

  /** A mutable box holding one value. */
  class GenericBox<T> {
    var content: T

    constructor (value: T)
      ensures content == value
    {
      content := value;
    }

    method GetValue() returns (r: T)
      ensures r == content
    {
      r := content;
    }

    method SetValue(value: T)
      modifies this
      ensures content == value
    {
      content := value;
    }
  }

  /** What a caller sees: reading the box gives the value it was built with
      until it is set, and the value last set afterwards. */
  method BoxHoldsLatest<T>(first: T, second: T) returns (before: T, after: T)
    ensures before == first && after == second
  {
    var box := new GenericBox(first);
    before := box.GetValue();
    box.SetValue(second);
    after := box.GetValue();
  }

  /** `logLength` for the two kinds of `Lengthwise` values the example
      passes, strings and arrays: both are sequences here. */
  function LogLength<T>(arg: seq<T>): (r: nat)
    ensures r == |arg|
  {
    |arg|
  }

  /** A pair whose key and value are fixed at construction. */
  class KeyValuePair<TKey, TValue> {
    const key: TKey
    const value: TValue

    constructor (key: TKey, value: TValue)
      ensures this.key == key && this.value == value
    {
      this.key := key;
      this.value := value;
    }

    method GetKey() returns (r: TKey)
      ensures r == key
    {
      r := key;
    }

    method GetValue() returns (r: TValue)
      ensures r == value
    {
      r := value;
    }
  }

  /** The example's pair `("age", 25)` reads back unchanged. */
  method PairReadsBack() returns (k: string, v: int)
    ensures k == "age" && v == 25
  {
    var pair := new KeyValuePair("age", 25);
    k := pair.GetKey();
    v := pair.GetValue();
  }

  datatype Todo = Todo(title: string, description: string, completed: bool)

  /** `Partial<Todo>`: each field present or absent. */
  datatype TodoPatch = TodoPatch(title: Option<string>, description: Option<string>, completed: Option<bool>)

  const NoChanges := TodoPatch(None, None, None)

  function Override<V>(present: Option<V>, otherwise: V): V {
    if present.Some? then present.value else otherwise
  }

  /** `{ ...todo, ...fieldsToUpdate }`. */
  function UpdateTodo(todo: Todo, fieldsToUpdate: TodoPatch): (r: Todo)
    ensures fieldsToUpdate.title.Some? ==> r.title == fieldsToUpdate.title.value
    ensures fieldsToUpdate.title.None? ==> r.title == todo.title
    ensures fieldsToUpdate.description.Some? ==> r.description == fieldsToUpdate.description.value
    ensures fieldsToUpdate.description.None? ==> r.description == todo.description
    ensures fieldsToUpdate.completed.Some? ==> r.completed == fieldsToUpdate.completed.value
    ensures fieldsToUpdate.completed.None? ==> r.completed == todo.completed
  {
    Todo(Override(fieldsToUpdate.title, todo.title),
         Override(fieldsToUpdate.description, todo.description),
         Override(fieldsToUpdate.completed, todo.completed))
  }

  /** `{ ...first, ...second }` of two partial updates. */
  function MergePatches(first: TodoPatch, second: TodoPatch): TodoPatch {
    TodoPatch(if second.title.Some? then second.title else first.title,
              if second.description.Some? then second.description else first.description,
              if second.completed.Some? then second.completed else first.completed)
  }

  /** An empty update changes nothing; applying an update twice is applying
      it once; two updates in a row are their merge applied once. */
  lemma UpdateTodoLaws(todo: Todo, first: TodoPatch, second: TodoPatch)
    ensures UpdateTodo(todo, NoChanges) == todo
    ensures UpdateTodo(UpdateTodo(todo, first), first) == UpdateTodo(todo, first)
    ensures UpdateTodo(UpdateTodo(todo, first), second) == UpdateTodo(todo, MergePatches(first, second))
  {
  }

  /** The example: marking the to-do as completed keeps its texts. */
  lemma UpdateTodoExample()
    ensures UpdateTodo(Todo("学习 TypeScript", "学习泛型编程", false), TodoPatch(None, None, Some(true)))
            == Todo("学习 TypeScript", "学习泛型编程", true)
  {
  }

  /** An item passes a query when every predicate holds of it
      (`filters.every(filter => filter(item))`). */
  predicate Accepts<T>(filters: seq<T -> bool>, item: T) {
    forall i :: 0 <= i < |filters| ==> filters[i](item)
  }

  /** `items.filter(item => Accepts(filters, item))`. */
  function Filter<T>(filters: seq<T -> bool>, items: seq<T>): (r: seq<T>)
    ensures |r| <= |items|
    ensures forall i :: 0 <= i < |r| ==> Accepts(filters, r[i])
  {
    if items == [] then []
    else (if Accepts(filters, items[0]) then [items[0]] else []) + Filter(filters, items[1..])
  }

  /** The result holds exactly the accepted items, each as often as it
      occurs in the input. */
  lemma {:induction false} FilterContents<T(!new)>(filters: seq<T -> bool>, items: seq<T>)
    ensures forall x :: x in Filter(filters, items) <==> x in items && Accepts(filters, x)
    ensures forall x :: multiset(Filter(filters, items))[x]
                       == if Accepts(filters, x) then multiset(items)[x] else 0
  {
    if items != [] {
      FilterContents(filters, items[1..]);
      assert items == [items[0]] + items[1..];
      assert multiset(items) == multiset([items[0]]) + multiset(items[1..]);
    }
  }

  /** Filtering keeps the original order: it distributes over concatenation,
      so the result lists the accepted items in the order they came. */
  lemma {:induction false} FilterAppend<T>(filters: seq<T -> bool>, front: seq<T>, back: seq<T>)
    ensures Filter(filters, front + back) == Filter(filters, front) + Filter(filters, back)
  {
    if front == [] {
      assert front + back == back;
    } else {
      var head := if Accepts(filters, front[0]) then [front[0]] else [];
      assert (front + back)[0] == front[0];
      assert (front + back)[1..] == front[1..] + back;
      FilterAppend(filters, front[1..], back);
      calc {
        Filter(filters, front + back);
        head + Filter(filters, front[1..] + back);
        head + (Filter(filters, front[1..]) + Filter(filters, back));
        (head + Filter(filters, front[1..])) + Filter(filters, back);
        Filter(filters, front) + Filter(filters, back);
      }
    }
  }

  /** A query with no predicates returns every item. */
  lemma {:induction false} FilterNoFilters<T>(items: seq<T>)
    ensures Filter([], items) == items
  {
    if items != [] {
      FilterNoFilters(items[1..]);
      assert items == [items[0]] + items[1..];
    }
  }

  /** Adding one more predicate filters the earlier result once more. */
  lemma {:induction false} FilterOneMore<T>(filters: seq<T -> bool>, p: T -> bool, items: seq<T>)
    ensures Filter(filters + [p], items) == Filter([p], Filter(filters, items))
  {
    if items != [] {
      var x := items[0];
      var rest := items[1..];
      assert Accepts(filters + [p], x) <==> Accepts(filters, x) && p(x) by {
        assert forall i :: 0 <= i < |filters| ==> (filters + [p])[i] == filters[i];
        assert (filters + [p])[|filters|] == p;
      }
      assert Accepts([p], x) <==> p(x) by {
        assert [p][0] == p;
      }
      FilterOneMore(filters, p, rest);
      var head := if Accepts(filters, x) then [x] else [];
      FilterAppend([p], head, Filter(filters, rest));
      assert Filter([p], head) == if Accepts(filters, x) && p(x) then [x] else [] by {
        if Accepts(filters, x) {
          assert Filter([p], head) == (if Accepts([p], x) then [x] else []) + Filter([p], []);
        }
      }
    }
  }

  /** A builder that collects predicates and filters by their conjunction. */
  class QueryBuilder<T(!new)> {
    var filters: seq<T -> bool>

    constructor ()
      ensures filters == []
    {
      filters := [];
    }

    /** Adds one predicate and returns the same builder, for chaining. */
    method Where(condition: T -> bool) returns (self: QueryBuilder<T>)
      modifies this
      ensures self == this
      ensures filters == old(filters) + [condition]
    {
      filters := filters + [condition];
      self := this;
    }

    /** The items every collected predicate accepts, each as often as in
        `items` and, by FilterAppend, in their original order. */
    function Execute(items: seq<T>): (r: seq<T>)
      reads this
      ensures forall x :: x in r <==> x in items && Accepts(filters, x)
      ensures forall x :: multiset(r)[x] == if Accepts(filters, x) then multiset(items)[x] else 0
    {
      FilterContents(filters, items);
      Filter(filters, items)
    }
  }

  datatype User = User(id: int, name: string, age: int)

  const Users: seq<User> := [User(1, "张三", 25), User(2, "李四", 30), User(3, "王五", 25)]

  predicate AgeIs25(user: User) { user.age == 25 }
  predicate IdPositive(user: User) { user.id > 0 }

  /** The example query `age === 25` and `id > 0` selects users 1 and 3. */
  lemma QueryExample()
    ensures Filter([AgeIs25, IdPositive], Users) == [Users[0], Users[2]]
  {
    var filters: seq<User -> bool> := [AgeIs25, IdPositive];
    assert Accepts(filters, Users[0]);
    assert !Accepts(filters, Users[1]) by {
      assert !filters[0](Users[1]);
    }
    assert Accepts(filters, Users[2]);
    assert Filter(filters, Users[2..]) == [Users[2]] + Filter(filters, []);
    assert Users[1..][1..] == Users[2..];
    assert Filter(filters, Users[1..]) == [] + Filter(filters, Users[2..]);
    assert Filter(filters, Users) == [Users[0]] + Filter(filters, Users[1..]);
  }

  /** The example run through a builder: two `where` calls, then `execute`. */
  method DemonstrateQuery() returns (result: seq<User>)
    ensures result == [Users[0], Users[2]]
  {
    var builder := new QueryBuilder<User>();
    builder := builder.Where(AgeIs25);
    builder := builder.Where(IdPositive);
    assert builder.filters == [AgeIs25, IdPositive];
    QueryExample();
    result := builder.Execute(Users);
  }
}
