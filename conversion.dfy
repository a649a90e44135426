/**
 * The type-level string conversions of
 * src/examples/type-challenges-basic/conversion.ts, as functions on values.
 * A string literal type is a string, a union of literal types is a set, and
 * the intrinsic `Uppercase` / `Lowercase` / `Uncapitalize` are taken over
 * ASCII letters.
 */
module Conversion {
  import opened Optional

  predicate IsUpper(c: char) { 'A' <= c <= 'Z' }
  predicate IsLower(c: char) { 'a' <= c <= 'z' }

  function ToUpper(c: char): (u: char)
    ensures IsLower(c) ==> IsUpper(u) && u as int == c as int - 32
    ensures !IsLower(c) ==> u == c
  {
    if IsLower(c) then (c as int - 32) as char else c
  }

  function ToLower(c: char): (l: char)
    ensures IsUpper(c) ==> IsLower(l) && l as int == c as int + 32
    ensures !IsUpper(c) ==> l == c
  {
    if IsUpper(c) then (c as int + 32) as char else c
  }

  lemma LowerOfUpper(c: char)
    requires IsLower(c)
    ensures ToLower(ToUpper(c)) == c
  {
  }

  /** `Uncapitalize<S>`: the first character lowercased. */
  function Uncapitalize(s: string): (r: string)
    ensures |r| == |s|
    ensures s != [] ==> r[0] == ToLower(s[0]) && r[1..] == s[1..]
    ensures r == [] || !IsUpper(r[0])
  {
    if s == [] then s else [ToLower(s[0])] + s[1..]
  }

  /** `StringToUnion<S>`: one member per character of S; `never` (the empty
      set) for the empty string. */
  function StringToUnion(s: string): (r: set<char>)
    ensures forall c :: c in r <==> c in s
  {
    if s == [] then {} else {s[0]} + StringToUnion(s[1..])
  }

  lemma StringToUnionExamples()
    ensures StringToUnion("hello") == {'h', 'e', 'l', 'o'}
    ensures StringToUnion("red") == {'r', 'e', 'd'}
    ensures StringToUnion("") == {}
  {
    StringToUnionExample("hello", {'h', 'e', 'l', 'o'});
    StringToUnionExample("red", {'r', 'e', 'd'});
  }

  lemma StringToUnionExample(s: string, u: set<char>)
    requires forall c :: c in u <==> c in s
    ensures StringToUnion(s) == u
  {
  }

  /** `ArrayToUnion<A>`, that is `A[number]`: the element at every index. */
  function ArrayToUnion(a: seq<string>): (r: set<string>)
    ensures forall x :: x in r <==> x in a
  {
    set i | 0 <= i < |a| :: a[i]
  }

  lemma ArrayToUnionExample()
    ensures ArrayToUnion(["apple", "banana", "orange"]) == {"apple", "banana", "orange"}
  {
    var a := ["apple", "banana", "orange"];
    assert a[0] in ArrayToUnion(a) && a[1] in ArrayToUnion(a) && a[2] in ArrayToUnion(a);
  }

  /** The position of the first occurrence of c in s. */
  function IndexOf(s: string, c: char): (r: Option<nat>)
    ensures r.None? <==> c !in s
    ensures r.Some? ==> r.value < |s| && s[r.value] == c
    ensures r.Some? ==> forall i :: 0 <= i < r.value ==> s[i] != c
  {
    if s == [] then None
    else if s[0] == c then Some(0)
    else
      match IndexOf(s[1..], c)
      case None => None
      case Some(k) => Some(k + 1)
  }

  /** `CamelCase<S>`: split S at its first underscore into L and what
      follows; when at least one character R follows the underscore, the
      result is L, then R uppercased, then the CamelCase of the rest;
      otherwise S is left as it is. */
  function CamelCase(s: string): (r: string)
    decreases |s|
    ensures '_' !in s ==> r == s
    ensures |r| <= |s|
    ensures IndexOf(s, '_').Some? && IndexOf(s, '_').value + 1 < |s| ==> |r| < |s|
  {
    var k := IndexOf(s, '_');
    if k.Some? && k.value + 1 < |s| then
      s[..k.value] + [ToUpper(s[k.value + 1])] + CamelCase(s[k.value + 2..])
    else s
  }

  /** IndexOf finds the first occurrence. */
  lemma IndexOfAt(s: string, c: char, n: nat)
    requires n < |s| && s[n] == c
    requires forall i :: 0 <= i < n ==> s[i] != c
    ensures IndexOf(s, c) == Some(n)
  {
    assert s[n] in s;
  }

  lemma CamelCaseExamples()
    ensures CamelCase("first_name") == "firstName"
    ensures CamelCase("user_id") == "userId"
  {
    SnakeWordsOfExamples();
    assert ToUpper('n') == 'N' && ToUpper('i') == 'I';
    CamelCaseExample("first_name", "first", 'n', "ame");
    CamelCaseExample("user_id", "user", 'i', "d");
  }

  lemma SnakeWordsOfExamples()
    ensures "first_name" == "first" + ['_', 'n'] + "ame" && "first" + ['N'] + "ame" == "firstName"
    ensures "user_id" == "user" + ['_', 'i'] + "d" && "user" + ['I'] + "d" == "userId"
    ensures '_' !in "first" && '_' !in "ame" && '_' !in "user" && '_' !in "d"
  {
  }

  lemma CamelCaseExample(s: string, a: string, x: char, b: string)
    requires s == a + ['_', x] + b && '_' !in a && '_' !in b
    ensures CamelCase(s) == a + [ToUpper(x)] + b
  {
    var n := |a|;
    assert s[..n] == a && s[n] == '_' && s[n + 1] == x && s[n + 2..] == b;
    forall i | 0 <= i < n
      ensures s[i] != '_'
    {
      assert s[i] == a[i];
    }
    IndexOfAt(s, '_', n);
    CamelCaseAt(s, n);
  }

  /** `R extends Uncapitalize<R>`: for string literals, R is unchanged by
      `Uncapitalize`, which holds iff R does not start with an uppercase
      letter. */
  predicate ExtendsUncapitalized(r: string)
    ensures ExtendsUncapitalized(r) <==> r == [] || !IsUpper(r[0])
  {
    r == Uncapitalize(r)
  }

  /** `KebabCase<S>`: split S into its first character C and the rest R; the
      result is C lowercased, then a dash when `Uncapitalize` would change R
      (R starts with an uppercase letter), then the KebabCase of R; the
      empty string stays empty. */
  function KebabCase(s: string): (r: string)
    ensures forall i :: 0 <= i < |r| ==> !IsUpper(r[i])
  {
    if s == [] then s
    else
      var c, rest := s[0], s[1..];
      if ExtendsUncapitalized(rest) then [ToLower(c)] + KebabCase(rest)
      else [ToLower(c)] + "-" + KebabCase(rest)
  }

  /** What KebabCase emits for a character that is not the first one. */
  function Segment(c: char): string {
    if IsUpper(c) then ['-', ToLower(c)] else [ToLower(c)]
  }

  /** The KebabCase of the characters after the first one. */
  function KebabTail(s: string): string {
    if s == [] then [] else Segment(s[0]) + KebabTail(s[1..])
  }

  lemma {:induction false} KebabTailAppend(a: string, b: string)
    ensures KebabTail(a + b) == KebabTail(a) + KebabTail(b)
  {
    if a == [] {
      assert a + b == b;
    } else {
      assert (a + b)[0] == a[0] && (a + b)[1..] == a[1..] + b;
      KebabTailAppend(a[1..], b);
    }
  }

  /** One step of KebabCase: the dash appears iff the second character is
      an uppercase letter. */
  lemma KebabCaseStep(s: string)
    requires s != []
    ensures KebabCase(s) == [ToLower(s[0])] + Dash(s[1..]) + KebabCase(s[1..])
  {
    var rest := s[1..];
    if ExtendsUncapitalized(rest) {
      assert Dash(rest) == [];
      assert [ToLower(s[0])] + Dash(rest) == [ToLower(s[0])];
    } else {
      assert Dash(rest) == "-";
    }
  }

  function Dash(rest: string): string {
    if rest != [] && IsUpper(rest[0]) then "-" else ""
  }

  /** KebabCase lowercases the first character and, after it, puts a dash
      before every uppercase letter and lowercases it. */
  lemma {:induction false} KebabCaseShape(s: string)
    requires s != []
    ensures KebabCase(s) == [ToLower(s[0])] + KebabTail(s[1..])
  {
    var rest := s[1..];
    var first := [ToLower(s[0])];
    KebabCaseStep(s);
    if rest == [] {
      assert KebabCase(s) == first + [] + [];
    } else {
      KebabCaseShape(rest);
      var tail := KebabTail(rest[1..]);
      var lowered := [ToLower(rest[0])];
      assert Dash(rest) + lowered == Segment(rest[0]);
      calc {
        KebabCase(s);
        first + Dash(rest) + (lowered + tail);
        { Associative(first, Dash(rest), lowered + tail);
          Associative(Dash(rest), lowered, tail); }
        first + (Segment(rest[0]) + tail);
        first + KebabTail(rest);
      }
    }
  }

  lemma Associative(a: string, b: string, c: string)
    ensures a + b + c == a + (b + c)
  {
  }

  /** Each uppercase letter after the first character costs one dash. */
  function UpperCount(s: string): nat {
    if s == [] then 0 else (if IsUpper(s[0]) then 1 else 0) + UpperCount(s[1..])
  }

  lemma {:induction false} KebabTailLength(s: string)
    ensures |KebabTail(s)| == |s| + UpperCount(s)
  {
    if s != [] {
      KebabTailLength(s[1..]);
    }
  }

  lemma KebabCaseLength(s: string)
    requires s != []
    ensures |KebabCase(s)| == |s| + UpperCount(s[1..])
  {
    KebabCaseShape(s);
    KebabTailLength(s[1..]);
  }

  lemma KebabCaseExamples()
    ensures KebabCase("getUserProfile") == "get-user-profile"
    ensures KebabCase("") == ""
  {
    var a, b, c := "et", "ser", "rofile";
    GetUserProfileWords();
    assert ToUpper('u') == 'U' && ToUpper('p') == 'P';
    assert AllLower(a) && AllLower(b) && AllLower(c);
    KebabCaseTwoWords('g', a, 'u', b, 'p', c);
  }

  lemma GetUserProfileWords()
    ensures "getUserProfile" == ['g'] + ("et" + ['U'] + ("ser" + ['P'] + "rofile"))
    ensures ['g'] + ("et" + ['-', 'u'] + ("ser" + ['-', 'p'] + "rofile")) == "get-user-profile"
  {
  }

  lemma KebabCaseTwoWords(first: char, a: string, x: char, b: string, y: char, c: string)
    requires IsLower(first) && AllLower(a) && IsLower(x) && AllLower(b) && IsLower(y) && AllLower(c)
    ensures KebabCase([first] + (a + [ToUpper(x)] + (b + [ToUpper(y)] + c)))
         == [first] + (a + ['-', x] + (b + ['-', y] + c))
  {
    var t := a + [ToUpper(x)] + (b + [ToUpper(y)] + c);
    KebabCaseShape([first] + t);
    assert ([first] + t)[1..] == t;
    KebabTailTwoWords(a, x, b, y, c);
  }

  /** Two lowercase words, each followed by a capitalised one, gain a dash
      before each capital. */
  lemma KebabTailTwoWords(a: string, x: char, b: string, y: char, c: string)
    requires AllLower(a) && IsLower(x) && AllLower(b) && IsLower(y) && AllLower(c)
    ensures KebabTail(a + [ToUpper(x)] + (b + [ToUpper(y)] + c)) == a + ['-', x] + (b + ['-', y] + c)
  {
    KebabTailOfStep(a, x, b + [ToUpper(y)] + c);
    KebabTailOfStep(b, y, c);
    LowercaseFixed(c);
  }

  /** Underscores written as dashes. */
  function DashForUnderscore(s: string): string {
    if s == [] then [] else [if s[0] == '_' then '-' else s[0]] + DashForUnderscore(s[1..])
  }

  lemma {:induction false} DashAppend(a: string, b: string)
    ensures DashForUnderscore(a + b) == DashForUnderscore(a) + DashForUnderscore(b)
  {
    if a == [] {
      assert a + b == b;
    } else {
      assert (a + b)[0] == a[0] && (a + b)[1..] == a[1..] + b;
      DashAppend(a[1..], b);
    }
  }

  /** Position i holds a lowercase letter, or an underscore followed by a
      lowercase letter. */
  predicate SnakeAt(s: string, i: nat)
    requires i < |s|
  {
    IsLower(s[i]) || (s[i] == '_' && i + 1 < |s| && IsLower(s[i + 1]))
  }

  /** Lowercase letters and underscores, each underscore followed by a
      lowercase letter. */
  predicate SnakeWords(s: string) {
    forall i :: 0 <= i < |s| ==> SnakeAt(s, i)
  }

  lemma SnakeWordsAt(s: string, i: nat)
    requires SnakeWords(s) && i < |s|
    ensures IsLower(s[i]) || (s[i] == '_' && i + 1 < |s| && IsLower(s[i + 1]))
  {
    assert SnakeAt(s, i);
  }

  lemma SnakeWordsSuffix(s: string, k: nat)
    requires SnakeWords(s) && k <= |s|
    ensures SnakeWords(s[k..])
  {
    var t := s[k..];
    forall i | 0 <= i < |t|
      ensures SnakeAt(t, i)
    {
      var j := k + i;
      assert t[i] == s[j];
      SnakeWordsAt(s, j);
      if j + 1 < |s| {
        assert t[i + 1] == s[j + 1];
      }
    }
  }

  /** A snake_case identifier: words of lowercase letters joined by single
      underscores. */
  predicate SnakeCase(s: string) {
    s != [] && s[0] != '_' && SnakeWords(s)
  }

  lemma {:induction false} LowercaseFixed(s: string)
    requires AllLower(s)
    ensures KebabTail(s) == s && DashForUnderscore(s) == s
  {
    if s != [] {
      LowercaseFixed(s[1..]);
      assert s == [s[0]] + s[1..];
    }
  }

  predicate AllLower(s: string) {
    forall i :: 0 <= i < |s| ==> IsLower(s[i])
  }

  lemma KebabTailOfStep(front: string, x: char, camelRest: string)
    requires AllLower(front) && IsLower(x)
    ensures KebabTail(front + [ToUpper(x)] + camelRest) == front + ['-', x] + KebabTail(camelRest)
  {
    var upper := ToUpper(x);
    LowercaseFixed(front);
    LowerOfUpper(x);
    assert KebabTail([upper]) == Segment(upper) + KebabTail([]);
    KebabTailAppend(front + [upper], camelRest);
    KebabTailAppend(front, [upper]);
  }

  lemma DashOfStep(front: string, x: char, rest: string)
    requires AllLower(front) && IsLower(x)
    ensures DashForUnderscore(front + ['_', x] + rest) == front + ['-', x] + DashForUnderscore(rest)
  {
    LowercaseFixed(front);
    assert DashForUnderscore(['_', x]) == ['-'] + DashForUnderscore([x]) by {
      assert ['_', x][1..] == [x];
    }
    assert DashForUnderscore([x]) == [x] + DashForUnderscore([]);
    DashAppend(front + ['_', x], rest);
    DashAppend(front, ['_', x]);
  }

  /** CamelCase at the first underscore, when a character follows it. */
  lemma CamelCaseAt(s: string, n: nat)
    requires IndexOf(s, '_') == Some(n) && n + 1 < |s|
    ensures CamelCase(s) == s[..n] + [ToUpper(s[n + 1])] + CamelCase(s[n + 2..])
  {
    var k := IndexOf(s, '_');
    assert k.value == n;
  }

  /** The snake_case words before the first underscore are all lowercase. */
  lemma SnakeFront(s: string, n: nat)
    requires SnakeWords(s) && n <= |s| && '_' !in s[..n]
    ensures AllLower(s[..n])
  {
    forall i | 0 <= i < n ensures IsLower(s[..n][i]) {
      assert s[..n][i] in s[..n] && s[..n][i] == s[i];
      SnakeWordsAt(s, i);
    }
  }

  lemma SplitAround(s: string, n: nat)
    requires n + 1 < |s|
    ensures s == s[..n] + [s[n], s[n + 1]] + s[n + 2..]
  {
    assert s[n..] == [s[n], s[n + 1]] + s[n + 2..];
    assert s == s[..n] + s[n..];
  }

  lemma {:induction false} CamelThenKebabTail(s: string)
    requires SnakeWords(s)
    ensures KebabTail(CamelCase(s)) == DashForUnderscore(s)
    decreases |s|
  {
    var k := IndexOf(s, '_');
    if k.None? {
      SnakeFront(s, |s|);
      assert s[..|s|] == s;
      LowercaseFixed(s);
    } else {
      var n := k.value;
      SnakeWordsAt(s, n);
      SnakeWordsSuffix(s, n + 2);
      SnakeFront(s, n);
      var front, x, rest := s[..n], s[n + 1], s[n + 2..];
      CamelThenKebabTail(rest);
      CamelCaseAt(s, n);
      KebabTailOfStep(front, x, CamelCase(rest));
      SplitAround(s, n);
      DashOfStep(front, x, rest);
    }
  }

  /** A string that does not start with an underscore keeps its first
      character under CamelCase. */
  lemma CamelCaseFirst(s: string)
    requires s != [] && s[0] != '_'
    ensures CamelCase(s) == [s[0]] + CamelCase(s[1..])
  {
    var t := s[1..];
    var k := IndexOf(t, '_');
    if k.Some? && k.value + 1 < |t| {
      IndexOfShift(s, '_', k.value);
      CamelCaseFirstSplit(s, k.value);
    } else {
      if k.Some? {
        IndexOfShift(s, '_', k.value);
      } else {
        IndexOfTail(s, '_');
      }
      assert s == [s[0]] + t;
    }
  }

  lemma CamelCaseFirstSplit(s: string, n: nat)
    requires n + 2 < |s| && IndexOf(s, '_') == Some(n + 1) && IndexOf(s[1..], '_') == Some(n)
    ensures CamelCase(s) == [s[0]] + CamelCase(s[1..])
  {
    var t := s[1..];
    var upper := [ToUpper(t[n + 1])];
    var tail := CamelCase(t[n + 2..]);
    CamelCaseAt(s, n + 1);
    CamelCaseAt(t, n);
    PrefixCons(s, n);
    assert s[n + 2] == t[n + 1] && s[n + 3..] == t[n + 2..];
    calc {
      CamelCase(s);
      s[..n + 1] + upper + tail;
      [s[0]] + t[..n] + upper + tail;
      { Associative3(s[0], t[..n], upper, tail); }
      [s[0]] + (t[..n] + upper + tail);
      [s[0]] + CamelCase(t);
    }
  }

  lemma IndexOfShift(s: string, c: char, n: nat)
    requires s != [] && s[0] != c && IndexOf(s[1..], c) == Some(n)
    ensures IndexOf(s, c) == Some(n + 1)
  {
    var t := s[1..];
    forall i | 0 <= i < n + 1
      ensures s[i] != c
    {
      if i > 0 {
        assert s[i] == t[i - 1];
      }
    }
    IndexOfAt(s, c, n + 1);
  }

  lemma IndexOfTail(s: string, c: char)
    requires s != [] && s[0] != c && IndexOf(s[1..], c).None?
    ensures IndexOf(s, c).None?
  {
  }

  lemma PrefixCons(s: string, n: nat)
    requires n < |s|
    ensures s[..n + 1] == [s[0]] + s[1..][..n]
  {
  }

  lemma Associative3(x: char, a: string, b: string, c: string)
    ensures [x] + a + b + c == [x] + (a + b + c)
  {
  }

  /** Converting a snake_case identifier to camelCase and then to
      kebab-case gives the identifier with its underscores turned into
      dashes: `first_name` becomes `firstName`, then `first-name`. */
  lemma SnakeCamelKebab(s: string)
    requires SnakeCase(s)
    ensures KebabCase(CamelCase(s)) == DashForUnderscore(s)
  {
    var t := s[1..];
    SnakeWordsAt(s, 0);
    SnakeWordsSuffix(s, 1);
    CamelThenKebabTail(t);
    CamelCaseFirst(s);
    var camel := [s[0]] + CamelCase(t);
    ConsParts(s[0], CamelCase(t));
    KebabCaseShape(camel);
    assert ToLower(s[0]) == s[0];
  }

  lemma ConsParts(c: char, r: string)
    ensures ([c] + r)[0] == c && ([c] + r)[1..] == r
  {
  }
}
