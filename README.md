# typescript-learning core, modelled in Dafny

This project models the parts of the typescript-learning teaching site that
carry logic, and proves what their code and comments promise:

- **The type quiz** (`src/pages/TypeQuiz.tsx`, module `TypeQuiz`). Five
  questions and four pieces of React state: `currentQuestion`, `score`,
  `showResult` and `selectedAnswers`. `Quiz` is a class with those four
  fields. `HandleAnswer` and `ResetQuiz` update them in place. Each is proved
  against the pure transition `Answer` and the initial state `Initial`. The
  invariant `Valid` covers the index and score bounds and the score/answers
  agreement, and every transition keeps it.
- **The validation decorators** (`src/examples/4-decorators.ts`, module
  `Decorators`). The global `registeredValidators` dictionary maps a class
  name to its property → validator-list entries. The entries are kept in
  insertion order, the order in which `for … in` visits property names that
  are not integer-like. Integer-like names would be visited first, which
  changes nothing the model states, because `validate` returns the
  conjunction of all checks.
  - `Required` and `PositiveNumber` are methods of `ValidatorRegistry`. Each
    overwrites one entry.
  - `Validate` runs the nested loops of `validate` with their invariants.
    It is proved equal to the predicate `IsValid`.
  - JavaScript truthiness and the `> 0` comparison are modelled on a small
    `JsValue` type.
- **The generics examples** (`src/examples/3-generics.ts`, module `Generics`).
  - `Identity` and `LogLength`.
  - The `GenericBox` and `KeyValuePair` classes.
  - `UpdateTodo`, the `{ ...todo, ...fieldsToUpdate }` override.
  - `QueryBuilder`: `Where` appends to the `filters` field. `Execute` filters
    by the conjunction of the filters and is specified by the recursive
    function `Filter`.
- **The type challenges**, read as value-level functions (modules
  `Conversion`, `Extraction`, `Recursive`):
  - Conversion: `StringToUnion`, `ArrayToUnion`, `CamelCase` and `KebabCase`
    on ASCII strings.
  - Extraction: `MyExclude`, `MyExtract`, `MyPick`, `MyOmit` and
    `PickByType`. A union type is a finite set of atoms (`string`, `number`,
    literals, `object`, `unknown`), and an object type is a map from
    property names to unions.
  - Recursive: `DeepReadonly`, `DeepPartial`, `DeepRequired` and `DeepMerge`
    on a tree of shapes. A property is a primitive leaf, a function, or a
    nested object, and carries `?`/`readonly` flags.

The files are `option.dfy` (the `Option` type), `quiz.dfy`, `decorators.dfy`,
`generics.dfy`, `conversion.dfy`, `extraction.dfy` and `recursive.dfy`.

## Model

| member | source | states |
|---|---|---|
| TypeQuiz.QuestionsWellFormed | src/pages/TypeQuiz.tsx:12-64 | there are five questions, numbered 1 to 5; every option is non-empty and every correct answer is one of its question's options |
| TypeQuiz.Matches | src/pages/TypeQuiz.tsx:77-79 | the number of recorded answers that equal their question's correct answer is at most the number of answers |
| TypeQuiz.MatchesAppend | src/pages/TypeQuiz.tsx:77-79 | recording one more answer adds one to the count of correct answers iff it is the current question's correct answer |
| TypeQuiz.Answer | src/pages/TypeQuiz.tsx:72-88 | the chosen answer is written at the current index and every other slot is unchanged; the score rises by exactly one iff the answer is correct and is unchanged otherwise; the index advances by one with no result shown before the last question; on the last question the result is shown and the index stays |
| TypeQuiz.WriteAt | src/pages/TypeQuiz.tsx:73-74 | copying the answers and writing one slot sets that slot and keeps every other one |
| TypeQuiz.InitialValid | src/pages/TypeQuiz.tsx:67-70 | the initial state (0, 0, false, []) satisfies the invariant and accepts an answer |
| TypeQuiz.ValidBounds | src/pages/TypeQuiz.tsx:97 | under the invariant the index is within [0, 4], so the current question exists, and 0 <= score <= answers <= 5 |
| TypeQuiz.ValidShowingIsEnabled | src/pages/TypeQuiz.tsx:129 | while the question card is shown, no answer is yet recorded for the current question, so its options are enabled |
| TypeQuiz.AnswerPreservesValid | src/pages/TypeQuiz.tsx:72-88 | answering an enabled question keeps the invariant and appends the answer to the recorded answers, so each question is answered at most once |
| TypeQuiz.Run | src/pages/TypeQuiz.tsx:72-95 | answering n questions from the start records exactly those answers, scores the number of correct ones, shows the result iff all five were answered, and otherwise stands at question n |
| TypeQuiz.RunCompletes | src/pages/TypeQuiz.tsx:85-87 | after five answers the quiz stands on the last question with the result shown |
| TypeQuiz.AllCorrectFullScore | src/pages/TypeQuiz.tsx:151 | answering every question correctly gives full marks |
| TypeQuiz.Quiz.constructor | src/pages/TypeQuiz.tsx:67-70 | a new quiz is in the initial state |
| TypeQuiz.Quiz.HandleAnswer | src/pages/TypeQuiz.tsx:72-88 | the new state is `Answer` of the old one; the invariant holds and the answers grew by exactly the given answer |
| TypeQuiz.Quiz.ResetQuiz | src/pages/TypeQuiz.tsx:90-95 | the state is exactly the initial state again, which is valid and accepts answers |
| Decorators.Truthy | src/examples/4-decorators.ts:88-90 | a value is truthy iff it is not undefined, null, false, 0 or the empty string |
| Decorators.ToNumber | src/examples/4-decorators.ts:92-94 | the numeric conversion used by `> 0` returns a number unchanged and turns undefined into NaN |
| Decorators.Positive | src/examples/4-decorators.ts:92-94 | `value > 0`: a number passes iff it is greater than 0, a boolean iff it is true, and undefined, null and "" never pass |
| Decorators.Check | src/examples/4-decorators.ts:87-96 | `required` passes iff the value is truthy, `positive` iff it is greater than 0, and any other validator name is ignored |
| Decorators.PositiveExamples | src/examples/4-decorators.ts:92-94 | `> 0` holds for 99, "12" and true, and fails for -10, 0, "", "abc", null and undefined |
| Decorators.Props | src/examples/4-decorators.ts:85 | the properties of a class's configuration are listed in insertion order |
| Decorators.Lookup | src/examples/4-decorators.ts:86 | a property's validator list is found iff the property is registered, and it is the one stored for it |
| Decorators.LookupAt | src/examples/4-decorators.ts:86 | with unique property names, looking up a registered property returns exactly its stored list |
| Decorators.Upsert | src/examples/4-decorators.ts:65-68 | spreading the old entries and setting one property replaces that property's list where it stands, or adds the property as a new last entry when it was absent; other entries are unchanged |
| Decorators.UpsertLookup | src/examples/4-decorators.ts:65-68 | after the update, property names stay unique, the property reads back the new list, and every other property reads back what it had |
| Decorators.UpsertReplaces | src/examples/4-decorators.ts:67 | a second registration on the same property replaces the list instead of appending to it |
| Decorators.Register | src/examples/4-decorators.ts:64-76 | registering adds the class name to the dictionary and leaves every other class unchanged |
| Decorators.RegisterEffect | src/examples/4-decorators.ts:64-76 | after registering, the property of that class has the one-element list [validator], and every other property of the class is unchanged |
| Decorators.ValidatorRegistry.constructor | src/examples/4-decorators.ts:62 | the dictionary starts empty |
| Decorators.ValidatorRegistry.Required | src/examples/4-decorators.ts:64-69 | the dictionary becomes `Register(old, class, prop, "required")` |
| Decorators.ValidatorRegistry.PositiveNumber | src/examples/4-decorators.ts:71-76 | the dictionary becomes `Register(old, class, prop, "positive")` |
| Decorators.ValidatorRegistry.Validate | src/examples/4-decorators.ts:78-100 | the result is true for an unregistered class and otherwise the conjunction of every registered check of every property |
| Decorators.CourseConfig | src/examples/4-decorators.ts:132-144 | after the class declaration, Course has title → [required] and price → [positive]; the bottom decorator runs first and is replaced by the top one |
| Decorators.CourseConfigPasses | src/examples/4-decorators.ts:132-144 | under that configuration a course validates iff its title is non-empty and its price is positive |
| Decorators.CourseExamples | src/examples/4-decorators.ts:157-161 | `Course("TypeScript基础", 99)` validates and `Course("", -10)` does not |
| Decorators.DemonstrateDecorators | src/examples/4-decorators.ts:132-161 | running the three decorators and then `validate` on the two courses gives true and then false |
| Generics.Identity | src/examples/3-generics.ts:4-6 | returns its argument |
| Generics.GenericBox.constructor | src/examples/3-generics.ts:19-21 | the box holds the given value |
| Generics.GenericBox.GetValue | src/examples/3-generics.ts:23-25 | returns the content |
| Generics.GenericBox.SetValue | src/examples/3-generics.ts:27-29 | the content becomes the given value |
| Generics.BoxHoldsLatest | src/examples/3-generics.ts:16-30 | `getValue` returns the value last given to the constructor or to `setValue` |
| Generics.LogLength | src/examples/3-generics.ts:37-39 | returns the length of its argument |
| Generics.KeyValuePair.constructor | src/examples/3-generics.ts:43-46 | stores the key and the value |
| Generics.KeyValuePair.GetKey | src/examples/3-generics.ts:48-50 | returns the key given to the constructor |
| Generics.KeyValuePair.GetValue | src/examples/3-generics.ts:52-54 | returns the value given to the constructor |
| Generics.PairReadsBack | src/examples/3-generics.ts:117-118 | the pair ("age", 25) reads back "age" and 25 |
| Generics.UpdateTodo | src/examples/3-generics.ts:65-67 | each field comes from the partial update when present, and from the todo otherwise |
| Generics.UpdateTodoLaws | src/examples/3-generics.ts:65-67 | an empty update changes nothing, an update applied twice equals one application, and two updates in a row equal one update with the later fields winning |
| Generics.UpdateTodoExample | src/examples/3-generics.ts:121-126 | updating the sample todo with `{ completed: true }` keeps its title and description and completes it |
| Generics.Filter | src/examples/3-generics.ts:79-81 | `items.filter(item => filters.every(...))` is no longer than its input and every item it returns is accepted by every filter |
| Generics.FilterContents | src/examples/3-generics.ts:78-82 | an item is in the result iff it is in the input and every filter accepts it; each accepted item occurs as often as in the input |
| Generics.FilterAppend | src/examples/3-generics.ts:78-82 | filtering keeps the original order: filtering a concatenation concatenates the filtered parts |
| Generics.FilterNoFilters | src/examples/3-generics.ts:78-82 | with no filters, every item is returned |
| Generics.FilterOneMore | src/examples/3-generics.ts:73-82 | one more `where` filters the earlier result once more |
| Generics.QueryBuilder.constructor | src/examples/3-generics.ts:71 | a new builder has no filters |
| Generics.QueryBuilder.Where | src/examples/3-generics.ts:73-76 | appends exactly the given predicate, keeps the earlier ones in order, and returns the same builder |
| Generics.QueryBuilder.Execute | src/examples/3-generics.ts:78-82 | returns exactly the items every filter accepts, each as often as in the input |
| Generics.QueryExample | src/examples/3-generics.ts:130-139 | the query `age == 25 && id > 0` on the three users selects users 1 and 3 in that order |
| Generics.DemonstrateQuery | src/examples/3-generics.ts:130-139 | building that query with two `Where` calls and executing it returns users 1 and 3 |
| Conversion.ToUpper | src/examples/type-challenges-basic/conversion.ts:97 | `Uppercase` turns a lowercase ASCII letter into its own capital (32 code points lower) and leaves every other character alone |
| Conversion.ToLower | src/examples/type-challenges-basic/conversion.ts:107-108 | `Lowercase` turns an uppercase ASCII letter into its own lowercase letter (32 code points higher) and leaves every other character alone |
| Conversion.LowerOfUpper | src/examples/type-challenges-basic/conversion.ts:97 | lowercasing undoes uppercasing a lowercase letter |
| Conversion.StringToUnion | src/examples/type-challenges-basic/conversion.ts:15-17 | a character is in the union iff it occurs in the string |
| Conversion.StringToUnionExamples | src/examples/type-challenges-basic/conversion.ts:11-17 | "hello" gives {h, e, l, o}, "red" gives {r, e, d}, and "" gives the empty union |
| Conversion.ArrayToUnion | src/examples/type-challenges-basic/conversion.ts:41 | a string is in the union iff it is an element of the array |
| Conversion.ArrayToUnionExample | src/examples/type-challenges-basic/conversion.ts:37-41 | the fruit array gives the union of its three strings |
| Conversion.IndexOf | src/examples/type-challenges-basic/conversion.ts:96 | `${L}_…` matches at the first underscore: none iff there is no underscore, else the position of an underscore with none before it |
| Conversion.IndexOfAt | src/examples/type-challenges-basic/conversion.ts:96 | the first position holding the character is the one found |
| Conversion.CamelCaseAt | src/examples/type-challenges-basic/conversion.ts:95-98 | at the first underscore, with a character after it, the result is the part before, that character uppercased, then the CamelCase of the rest |
| Conversion.CamelCaseFirst | src/examples/type-challenges-basic/conversion.ts:95-98 | a leading character that is not an underscore is kept in front of the CamelCase of the rest |
| Conversion.CamelCase | src/examples/type-challenges-basic/conversion.ts:95-98 | a string without an underscore is returned as it is (the `: S` branch); the result is never longer than the input, and strictly shorter when an underscore has a character after it |
| Conversion.CamelCaseExample | src/examples/type-challenges-basic/conversion.ts:95-98 | `a_xb` with no underscore in a or b becomes a, X uppercased, then b |
| Conversion.CamelCaseExamples | src/examples/type-challenges-basic/conversion.ts:162 | `first_name` becomes `firstName` and `user_id` becomes `userId` |
| Conversion.KebabCase | src/examples/type-challenges-basic/conversion.ts:104-109 | the result contains no uppercase letter |
| Conversion.Uncapitalize | src/examples/type-challenges-basic/conversion.ts:106 | `Uncapitalize` keeps the length, lowercases the first character, keeps the rest, and never leaves an uppercase letter in front |
| Conversion.ExtendsUncapitalized | src/examples/type-challenges-basic/conversion.ts:106 | `R extends Uncapitalize<R>` holds iff R is empty or does not start with an uppercase letter |
| Conversion.KebabCaseStep | src/examples/type-challenges-basic/conversion.ts:105-108 | one step: the first character lowercased, a dash iff the next character is uppercase, then the KebabCase of the rest |
| Conversion.KebabCaseShape | src/examples/type-challenges-basic/conversion.ts:104-109 | KebabCase lowercases the first character and, after it, puts a dash before each uppercase letter and lowercases it |
| Conversion.KebabTailAppend | src/examples/type-challenges-basic/conversion.ts:104-109 | the conversion of the characters after the first one works piece by piece over a concatenation |
| Conversion.KebabTailLength | src/examples/type-challenges-basic/conversion.ts:108 | each uppercase letter after the first character adds one dash |
| Conversion.KebabCaseLength | src/examples/type-challenges-basic/conversion.ts:104-109 | the result is as long as the input plus one for each uppercase letter after the first character |
| Conversion.LowercaseFixed | src/examples/type-challenges-basic/conversion.ts:107 | a word of lowercase letters gets no dash and no change of case, and has no underscore to rewrite |
| Conversion.KebabCaseTwoWords | src/examples/type-challenges-basic/conversion.ts:104-109 | a lowercase word followed by two capitalised words becomes the three words joined by dashes, all lowercase |
| Conversion.KebabCaseExamples | src/examples/type-challenges-basic/conversion.ts:163 | `getUserProfile` becomes `get-user-profile` and "" stays "" |
| Conversion.DashAppend | src/examples/type-challenges-basic/conversion.ts:95-109 | writing underscores as dashes works piece by piece over a concatenation |
| Conversion.CamelThenKebabTail | src/examples/type-challenges-basic/conversion.ts:95-109 | for snake_case words, converting to camelCase and then kebab-casing every character after the first turns each underscore into a dash |
| Conversion.SnakeCamelKebab | src/examples/type-challenges-basic/conversion.ts:95-109 | for a snake_case identifier, KebabCase of CamelCase is the identifier with its underscores written as dashes |
| Extraction.Keys | src/examples/type-challenges-basic/extraction.ts:23 | the union of literal property names holds exactly the given names |
| Extraction.KeyOf | src/examples/type-challenges-basic/extraction.ts:45 | `keyof T` holds exactly T's property names |
| Extraction.Normalize | src/examples/type-challenges-basic/extraction.ts:59-72 | the union as the compiler reduces it (`string \| "a"` is `string`, `unknown \| X` is `unknown`): a part of T with no member covered by another, to which every member of T is still assignable |
| Extraction.NormalizeLiterals | src/examples/type-challenges-basic/extraction.ts:55-56 | a union of literals is already reduced |
| Extraction.NormalizeIdempotent | src/examples/type-challenges-basic/extraction.ts:59-72 | reducing a union twice is reducing it once |
| Extraction.MyExclude | src/examples/type-challenges-basic/extraction.ts:59 | distributing over the members of the reduced T, a member is kept iff it is not assignable to U |
| Extraction.MyExtract | src/examples/type-challenges-basic/extraction.ts:72 | distributing over the members of the reduced T, a member is kept iff it is assignable to U |
| Extraction.ExcludeIsDifference | src/examples/type-challenges-basic/extraction.ts:55-59 | for a union of literals U, MyExclude is the reduced T minus U |
| Extraction.ExtractIsIntersection | src/examples/type-challenges-basic/extraction.ts:67-72 | for a union of literals U, MyExtract is the reduced T intersected with U |
| Extraction.ExcludeExtractPartition | src/examples/type-challenges-basic/extraction.ts:59-72 | MyExclude and MyExtract of the same T and U are disjoint, and together they are the reduced T |
| Extraction.SameUnionSameAnswer | src/examples/type-challenges-basic/extraction.ts:59-72 | two ways of writing the same union give the same MyExclude and the same MyExtract |
| Extraction.ExtractFromString | src/examples/type-challenges-basic/extraction.ts:72 | `MyExtract<string \| "a", "a">` is `never`, because the union is `string` |
| Extraction.MyPick | src/examples/type-challenges-basic/extraction.ts:23-25 | the result has exactly the keys K |
| Extraction.MyOmit | src/examples/type-challenges-basic/extraction.ts:44-46 | every kept property is a property of T outside K, with T's type; that all of them are kept is OmitKeepsValues |
| Extraction.PickKeepsValues | src/examples/type-challenges-basic/extraction.ts:19-25 | MyPick has exactly the keys K, each with T's type |
| Extraction.OmitKeepsValues | src/examples/type-challenges-basic/extraction.ts:40-46 | MyOmit, built from `Exclude<keyof T, K>`, has exactly T's keys outside K, each with T's type |
| Extraction.PickOmitPartition | src/examples/type-challenges-basic/extraction.ts:23-46 | picking K and omitting K share no key and together give back T |
| Extraction.PickByType | src/examples/type-challenges-basic/extraction.ts:118-120 | a property is kept iff it is a property of T whose whole type extends U, and it keeps T's type |
| Extraction.PickByTypeIsPick | src/examples/type-challenges-basic/extraction.ts:118-120 | PickByType is MyPick of exactly the keys whose whole type extends U |
| Extraction.PickByTypeUnknown | src/examples/type-challenges-basic/extraction.ts:118-120 | every type extends `unknown`, so PickByType with `unknown` keeps every property |
| Extraction.ExcludeExample | src/examples/type-challenges-basic/extraction.ts:55-56 | "a" \| "b" \| "c" without "a" is "b" \| "c" |
| Extraction.ExtractExample | src/examples/type-challenges-basic/extraction.ts:68-69 | "a" \| "b" \| "c" with "a" \| "f" is "a" |
| Extraction.ActiveStatusExample | src/examples/type-challenges-basic/extraction.ts:101-104 | removing deleted and archived from Status leaves draft and published |
| Extraction.ModifyMethodsExample | src/examples/type-challenges-basic/extraction.ts:107-110 | extracting POST, PUT and PATCH from HttpMethod gives those three |
| Extraction.UserIdentityExample | src/examples/type-challenges-basic/extraction.ts:77-86 | picking id and name from User gives `{ id: number; name: string }` |
| Extraction.ClientResponseExample | src/examples/type-challenges-basic/extraction.ts:89-98 | omitting debug and timestamp from ApiResponse leaves data, status and message |
| Extraction.StringPropsExample | src/examples/type-challenges-basic/extraction.ts:122-131 | PickByType of Mixed with string is `{ name: string }` |
| Extraction.RequiredFieldsExample | src/examples/type-challenges-basic/extraction.ts:138-151 | picking username, password and email from FormData keeps those three strings |
| Extraction.SafeFormDataExample | src/examples/type-challenges-basic/extraction.ts:154 | omitting password from FormData leaves the other five properties |
| Extraction.BooleanFieldsExample | src/examples/type-challenges-basic/extraction.ts:157 | PickByType of FormData with boolean is `{ newsletter: boolean }` |
| Recursive.IsObject | src/examples/type-challenges-intermediate/recursive.ts:16 | `T[P] extends object` holds for object and function types and fails for primitives |
| Recursive.Descends | src/examples/type-challenges-intermediate/recursive.ts:16-20 | the guard `extends object ? (extends Function ? keep : recurse) : keep` recurses exactly into object types that are not functions |
| Recursive.DeepReadonly | src/examples/type-challenges-intermediate/recursive.ts:15-21 | a primitive T is unchanged and a function T becomes `{}`; otherwise the property names are kept, every property becomes readonly and keeps its `?`, and function and primitive properties keep their type |
| Recursive.DeepPartial | src/examples/type-challenges-intermediate/recursive.ts:32-38 | a primitive T is unchanged and a function T becomes `{}`; otherwise the property names are kept, every property becomes optional and keeps `readonly`, and function and primitive properties keep their type |
| Recursive.DeepRequired | src/examples/type-challenges-intermediate/recursive.ts:49-55 | a primitive T is unchanged and a function T becomes `{}`; otherwise the property names are kept, no property is optional, `readonly` is kept, and function and primitive properties keep their type |
| Recursive.DeepReadonlyEverywhere | src/examples/type-challenges-intermediate/recursive.ts:15-21 | after DeepReadonly every property at every depth is readonly |
| Recursive.DeepPartialEverywhere | src/examples/type-challenges-intermediate/recursive.ts:32-38 | after DeepPartial every property at every depth is optional |
| Recursive.DeepRequiredEverywhere | src/examples/type-challenges-intermediate/recursive.ts:49-55 | after DeepRequired no property at any depth is optional |
| Recursive.ReadonlyShapeKept | src/examples/type-challenges-intermediate/recursive.ts:15-21 | DeepReadonly changes modifiers only: with modifiers erased, the result is the input (a function input read as `{}`) |
| Recursive.PartialShapeKept | src/examples/type-challenges-intermediate/recursive.ts:32-38 | DeepPartial changes modifiers only, in the same sense |
| Recursive.RequiredShapeKept | src/examples/type-challenges-intermediate/recursive.ts:49-55 | DeepRequired changes modifiers only, in the same sense |
| Recursive.DeepReadonlyIdempotent | src/examples/type-challenges-intermediate/recursive.ts:15-21 | applying DeepReadonly twice is the same as once |
| Recursive.RequiredAfterPartial | src/examples/type-challenges-intermediate/recursive.ts:32-55 | DeepRequired of DeepPartial of T is DeepRequired of T |
| Recursive.PartialAfterRequired | src/examples/type-challenges-intermediate/recursive.ts:32-55 | DeepPartial of DeepRequired of T is DeepPartial of T |
| Recursive.DeepMerge | src/examples/type-challenges-intermediate/recursive.ts:145-146 | for two object types, the keys of the merge are `keyof T \| keyof U` |
| Recursive.DeepMergeAt | src/examples/type-challenges-intermediate/recursive.ts:145-157 | a key only in T keeps T's type and one only in U keeps U's; a key in both is merged when both types are objects and takes U's type otherwise; no modifier is kept |
| Recursive.MergeKeepsLeavesOfU | src/examples/type-challenges-intermediate/recursive.ts:145-157 | wherever U has a primitive type, at any depth, the merge has that same primitive there |
| Recursive.MergedConfigExample | src/examples/type-challenges-intermediate/recursive.ts:159-190 | merging DefaultConfig with UserConfig gives api { url, version, timeout } and logging { level, path } |
| Recursive.DeepReadonlyExample | src/examples/type-challenges-intermediate/recursive.ts:10-12 | `{ a: { b: string } }` becomes `{ readonly a: { readonly b: string } }` |
| Recursive.DeepPartialExample | src/examples/type-challenges-intermediate/recursive.ts:27-29 | `{ a: { b: string } }` becomes `{ a?: { b?: string } }` |
| Recursive.DeepRequiredExample | src/examples/type-challenges-intermediate/recursive.ts:44-46 | `{ a?: { b?: string } }` becomes `{ a: { b: string } }` |

## Left out

- Rendering, animation and routing of the quiz page are not modelled: the JSX, the motion components and the result card. The option buttons' `disabled` flag survives as the precondition `Enabled` of `HandleAnswer`.
- TypeQuiz.Quiz.HandleAnswer: the 500 ms `setTimeout` before the index advances is modelled as an immediate update, and React's batched, asynchronous state updates as one atomic step.
- TypeQuiz.Quiz.HandleAnswer: requires the invariant and an enabled question (no answer yet recorded at the current index, result not shown). On the page this is guaranteed by the disabled buttons and the result card that replaces the question card.
- The `console.log` messages inside `validate` and the whole demo are left out, because they are output only.
- The logging decorators `Logger`, `Log`, `LogProperty`, `LogParameter` and `LogAccessor`, the `Autobind` decorator and the `Product` class are not modelled. They only log or rebind `this`, and no validation depends on them.
- Decorators.Truthy: property values are modelled as JavaScript primitives only. `validate` receives any object, so a property may also hold an object or an array (`!!{}` is true, `[5] > 0` is true); such values are not modelled, in Truthy or in Positive.
- Decorators.ToNumber: numbers are modelled as mathematical reals, so NaN, infinities and floating-point rounding are not modelled. String-to-number conversion is modelled only for the empty string and strings of decimal digits; any other string reads as NaN.
- Decorators: a decorated class is identified by its name string, standing in for `target.constructor.name`.
- Generics: `GenericResponse` (an interface with no behaviour), `createInstance` (construction through a constructor value) and the `console.log` demo output are not modelled.
- Generics.LogLength: for a string, JavaScript's `length` counts UTF-16 code units, and a character outside the Basic Multilingual Plane counts twice. The model counts Unicode scalar values, one per character. The model also takes only sequences, while `T extends Lengthwise` accepts any value with a numeric `length`, such as `{ length: 3 }` or a function.
- Generics.UpdateTodo: a field given explicitly as `undefined` in the partial update would overwrite the todo's value. The model treats an absent field and an `undefined` field alike, as `None`.
- Conversion: `UnionToIntersection`, `UnionToTuple` and `GetUnionLast` are not modelled. They rely on the compiler's contravariant inference and on its internal union order.
- Conversion.ToUpper: `Uppercase`, `Lowercase` and `Uncapitalize` are modelled on ASCII letters only. Unicode case mapping is not modelled.
- Conversion.StringToUnion: the union is a set, so a repeated character appears once. This matches the union type, which also collapses duplicates.
- Extraction: a union is modelled as a set of members; the operations reduce it first (Normalize), as the compiler does. Only the reductions by `string`, `number` and `unknown` are modelled.
- Extraction: object types carry no `?`/`readonly` modifiers here, and MyPick/MyOmit do not copy them. Assignability is modelled only among `string`, `number`, literals, `boolean`, `object` and `unknown`. Structural assignability between object types is not modelled.
- Recursive: `DeepRecord` is not modelled. The `Store` class and `mergeConfigs` are not modelled either, because their bodies are stubs.
- Recursive.DeepRequired: with `strictNullChecks`, an optional property's type includes `undefined`. The `extends object` test then fails, and the source does not descend into an optional object-typed property. The model follows the documented examples and descends regardless.
- Recursive.DeepReadonly: the same `strictNullChecks` case applies. Under it, an optional object-typed property is kept as it is instead of being made readonly inside.
- Recursive.DeepPartial: the same `strictNullChecks` case applies to a property that is already optional.
- Recursive.RequiredAfterPartial: this holds for the model's reading without `strictNullChecks`. Under it, `DeepRequired<DeepPartial<{ a: { b: string } }>>` keeps `b?`, because the test sees `{ b?: string } | undefined`.
- Recursive.PartialAfterRequired: like RequiredAfterPartial, this holds for the reading without `strictNullChecks` only.
- Recursive.DeepMerge: the merged properties carry no modifiers, because the key set `keyof T | keyof U` is not homomorphic. A function type counts as an object with no properties.
- Recursive.DeepMerge: requires both arguments to be object types. A primitive `T` or `U` at the top level is not modelled; there `keyof string` would contribute the string's own members (`length`, `charAt`, …). The recursion and the one caller, `mergeConfigs`, pass only object types.
- Recursive.DeepMerge: this is the reading without `strictNullChecks`. Under it, an optional property's `T[P]` or `U[P]` includes `undefined`, the `extends object` test fails, and the source takes `U[P]` whole instead of merging. The model ignores the `?` flag of both inputs and merges any shared object-typed property.
- Recursive.DeepMergeAt: states the same reading without `strictNullChecks`: a shared property whose types are both objects is merged even when either side is optional.
- Recursive.MergeKeepsLeavesOfU: requires both arguments to be object types, as DeepMerge does.
