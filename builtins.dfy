/// The pure built-ins of `commonFilterFunctions` (src/index.ts). The
/// string built-ins first render their arguments with `toStringSafe`,
/// whose throws propagate to the expression that called them. A missing
/// argument is `Undefined`, which is also what selects a default
/// parameter value.
module Builtins {
  import opened JsValues
  import Internal

  /** The names `commonFilterFunctions` registers, in source order. */
  const Names: seq<string> := [
    "concat", "day", "endOf", "every", "hour", "isFalsy", "isNil", "isNull",
    "isoWeek", "isoWeekday", "isTruthy", "isUndefined", "item", "join", "len",
    "log", "lower", "ltrim", "minute", "month", "ms", "now", "regex", "rtrim",
    "second", "some", "startOf", "str", "trim", "typeOf", "upper", "year"
  ]

  /** `args.map((a) => toStringSafe(a))`: the first throw propagates. */
  function ToStringSafeAll(xs: seq<Value>): (r: Outcome<seq<string>>)
    ensures r.Normal? <==> forall i :: 0 <= i < |xs| ==> Internal.ToStringSafe(xs[i]).Normal?
    ensures r.Normal? ==> |r.value| == |xs| && forall i :: 0 <= i < |xs| ==> Internal.ToStringSafe(xs[i]) == Normal(r.value[i])
    ensures r.Threw? ==> exists k :: 0 <= k < |xs| && Internal.ToStringSafe(xs[k]) == Threw(r.error) && forall i :: 0 <= i < k ==> Internal.ToStringSafe(xs[i]).Normal?
  {
    var outs := seq(|xs|, i requires 0 <= i < |xs| => Internal.ToStringSafe(xs[i]));
    assert forall i :: 0 <= i < |xs| ==> outs[i] == Internal.ToStringSafe(xs[i]);
    var r := Sequence(outs);
    assert r.Threw? ==> exists k :: 0 <= k < |xs| && outs[k] == Threw(r.error) && forall i :: 0 <= i < k ==> outs[i].Normal?;
    r
  }

  // ---------------------------------------------------------------------
  // len, item, typeOf

  /** `len(val)`: 0 for every falsy value, otherwise `val.length`, which
      is undefined for values without a length. */
  function Len(val: Value): (r: Value)
    ensures !Truthy(val) ==> r == Num(0)
    ensures val.Str? ==> r == Num(|val.s|)
    ensures val.Arr? ==> r == Num(|val.items|)
    ensures (val.Bool? || val.Num?) && Truthy(val) ==> r == Undefined
  {
    if !Truthy(val) then Num(0) else GetProp(val, Name("length"))
  }

  /** The key `item` uses for a negative numeric key `key`:
      `(arr ? arr.length : 0) + key`, with JavaScript's `+` (a missing
      length gives NaN, a non-numeric one string concatenation), turned
      into a property key. */
  function NegativeKey(arr: Value, key: int): Outcome<PropKey>
    requires key < 0
  {
    var base := if Truthy(arr) then GetProp(arr, Name("length")) else Num(0);
    match base
    case Num(n) => ToPropertyKey(Num(n + key))
    case Bool(b) => ToPropertyKey(Num((if b then 1 else 0) + key))
    case Null => ToPropertyKey(Num(key))
    case Undefined => Normal(Name("NaN"))
    case _ =>
      (match JsToString(base)
       case Threw(e) => Threw(e)
       case Normal(t) => Normal(CanonicalKey(t + NumberText(key))))
  }

  /** `item(arr, key = 0)`: a negative numeric key counts from the end,
      then `arr?.[key]`. */
  function Item(arr: Value, key: Value): Outcome<Value> {
    var k := if key == Undefined then Num(0) else key;
    if k.Num? && k.n < 0 then
      match NegativeKey(arr, k.n)
      case Threw(e) => Threw(e)
      case Normal(pk) => Normal(if Internal.IsNil(arr) then Undefined else GetProp(arr, pk))
    else if Internal.IsNil(arr) then Normal(Undefined)
    else
      match ToPropertyKey(k)
      case Threw(e) => Threw(e)
      case Normal(pk) => Normal(GetProp(arr, pk))
  }

  /** A key written as the decimal text of an index names the same
      element as the number: `item(arr, "2")` is `item(arr, 2)`. */
  lemma ItemOfIndexText(arr: Value, n: nat)
    ensures Item(arr, Str(DecimalText(n))) == Item(arr, Num(n))
  {
    CanonicalKeyOfDecimalText(n);
  }

  /** Indexing an array with `item`: non-negative indices from the start,
      negative ones from the end, and undefined outside the array. */
  lemma ItemOfArray(items: seq<Value>, k: int)
    ensures 0 <= k < |items| ==> Item(Arr(items), Num(k)) == Normal(items[k])
    ensures -|items| <= k < 0 ==> Item(Arr(items), Num(k)) == Normal(items[|items| + k])
    ensures k >= |items| || k < -|items| ==> Item(Arr(items), Num(k)) == Normal(Undefined)
  {
    if k < -|items| {
      var t := NumberText(|items| + k);
      assert t[0] == '-';
      assert t != "length";
      assert NegativeKey(Arr(items), k) == Normal(Name(t));
    } else if k < 0 {
      assert NegativeKey(Arr(items), k) == Normal(Index(|items| + k));
    }
  }

  /** Indexing a string with `item` gives one-character strings, counted
      the same way as for arrays. */
  lemma ItemOfString(s: string, k: int)
    ensures 0 <= k < |s| ==> Item(Str(s), Num(k)) == Normal(Str([s[k]]))
    ensures -|s| <= k < 0 ==> Item(Str(s), Num(k)) == Normal(Str([s[|s| + k]]))
    ensures k >= |s| || k < -|s| ==> Item(Str(s), Num(k)) == Normal(Undefined)
  {
    if k < -|s| {
      var t := NumberText(|s| + k);
      assert t[0] == '-';
      assert t != "length";
      assert NegativeKey(Str(s), k) == Normal(Name(t));
    } else if k < 0 {
      assert NegativeKey(Str(s), k) == Normal(Index(|s| + k));
    }
  }

  /** Without a key, `item` gives the first element; on null or undefined
      it gives undefined, whatever the key. */
  lemma ItemDefaultsAndNil(arr: Value, key: Value)
    ensures arr.Arr? ==> Item(arr, Undefined) == Normal(if |arr.items| > 0 then arr.items[0] else Undefined)
    ensures Internal.IsNil(arr) ==> Item(arr, key) == Normal(Undefined)
  {
  }

  /** `typeOf(val)`: "null" for null, "array" for arrays, the `typeof`
      operator for everything else. */
  function TypeOf(val: Value): (r: string)
    ensures r == "null" <==> val == Null
    ensures r == "array" <==> val.Arr?
    ensures val != Null && !val.Arr? ==> r == TypeOfOperator(val)
  {
    if val == Null then "null"
    else if val.Arr? then "array"
    else TypeOfOperator(val)
  }

  // ---------------------------------------------------------------------
  // isNil, isNull, isUndefined, isTruthy, isFalsy

  /** `isNil(val)`, the same test as the helper of the same name. */
  predicate IsNil(val: Value) {
    Internal.IsNil(val)
  }

  /** `isNull(val)`: `val === null`. */
  predicate IsNull(val: Value) {
    val == Null
  }

  /** `isUndefined(val)`: `typeof val === 'undefined'`. */
  predicate IsUndefined(val: Value) {
    TypeOfOperator(val) == "undefined"
  }

  /** `isTruthy(val)`: `!!val`. */
  predicate IsTruthy(val: Value) {
    Truthy(val)
  }

  /** `isFalsy(val)`: `!val`. */
  predicate IsFalsy(val: Value) {
    !Truthy(val)
  }

  /** How the type tests relate: nil is null or undefined, the two are
      exclusive, nil values are falsy, and falsy is the negation of
      truthy. */
  lemma TypeTests(val: Value)
    ensures IsNil(val) <==> IsNull(val) || IsUndefined(val)
    ensures !(IsNull(val) && IsUndefined(val))
    ensures IsNil(val) ==> IsFalsy(val)
    ensures IsFalsy(val) <==> !IsTruthy(val)
    ensures IsUndefined(val) <==> TypeOf(val) == "undefined"
  {
  }

  // ---------------------------------------------------------------------
  // every, some

  /** `s.includes(x)` */
  function Includes(s: string, x: string): bool
    decreases |s|
  {
    if |x| > |s| then false
    else if s[..|x|] == x then true
    else Includes(s[1..], x)
  }

  /** `x` occurs in `s` at position `i`. */
  predicate OccursAt(x: string, s: string, i: nat) {
    i + |x| <= |s| && s[i..i + |x|] == x
  }

  /** `x` occurs in `s` at some position. */
  ghost predicate IsSubstring(x: string, s: string) {
    exists i: nat :: OccursAt(x, s, i)
  }

  /** `includes` finds exactly the substrings (case-sensitively: it
      compares characters as they are). */
  lemma {:induction false} IncludesIff(s: string, x: string)
    ensures Includes(s, x) <==> IsSubstring(x, s)
    decreases |s|
  {
    if |x| > |s| {
    } else if s[..|x|] == x {
      assert OccursAt(x, s, 0);
    } else {
      IncludesIff(s[1..], x);
      if IsSubstring(x, s) {
        var i: nat :| OccursAt(x, s, i);
        assert i != 0;
        assert s[1..][i - 1..i - 1 + |x|] == x;
        assert OccursAt(x, s[1..], i - 1);
      }
      if IsSubstring(x, s[1..]) {
        var i: nat :| OccursAt(x, s[1..], i);
        assert s[i + 1..i + 1 + |x|] == x;
        assert OccursAt(x, s, i + 1);
      }
    }
  }

  /** `every(val, ...args)`: whether every rendered argument occurs in the
      rendered `val`. */
  function Every(val: Value, args: seq<Value>): Outcome<bool> {
    match Internal.ToStringSafe(val)
    case Threw(e) => Threw(e)
    case Normal(s) =>
      (match ToStringSafeAll(args)
       case Threw(e) => Threw(e)
       case Normal(xs) => Normal(forall i :: 0 <= i < |xs| ==> Includes(s, xs[i])))
  }

  /** `some(val, ...args)`: whether some rendered argument occurs in the
      rendered `val`. */
  function Some(val: Value, args: seq<Value>): Outcome<bool> {
    match Internal.ToStringSafe(val)
    case Threw(e) => Threw(e)
    case Normal(s) =>
      (match ToStringSafeAll(args)
       case Threw(e) => Threw(e)
       case Normal(xs) => Normal(exists i :: 0 <= i < |xs| && Includes(s, xs[i])))
  }

  /** `includes` on every rendered argument agrees with `IsSubstring`. */
  lemma RenderedArgumentsIncluded(s: string, args: seq<Value>)
    requires ToStringSafeAll(args).Normal?
    ensures forall i :: 0 <= i < |args| ==>
              (Includes(s, ToStringSafeAll(args).value[i]) <==> IsSubstring(Internal.ToStringSafe(args[i]).value, s))
  {
    var xs := ToStringSafeAll(args).value;
    forall i | 0 <= i < |args|
      ensures Includes(s, xs[i]) <==> IsSubstring(Internal.ToStringSafe(args[i]).value, s)
    {
      IncludesIff(s, xs[i]);
    }
  }

  /** `every` holds exactly when every argument renders to a substring of
      the rendered value, vacuously so without arguments. A throw while
      rendering the value, or else an argument, is what it throws. */
  lemma EveryMeansAllSubstrings(val: Value, args: seq<Value>)
    ensures Internal.ToStringSafe(val).Normal? && ToStringSafeAll(args).Normal? ==>
              Every(val, args) == Normal(forall i :: 0 <= i < |args| ==> IsSubstring(Internal.ToStringSafe(args[i]).value, Internal.ToStringSafe(val).value))
    ensures Internal.ToStringSafe(val).Threw? ==> Every(val, args) == Threw(Internal.ToStringSafe(val).error)
    ensures Internal.ToStringSafe(val).Normal? && ToStringSafeAll(args).Threw? ==> Every(val, args) == Threw(ToStringSafeAll(args).error)
    ensures args == [] ==> Every(val, args).Threw? || Every(val, args) == Normal(true)
  {
    if Internal.ToStringSafe(val).Normal? && ToStringSafeAll(args).Normal? {
      RenderedArgumentsIncluded(Internal.ToStringSafe(val).value, args);
    }
  }

  /** `some` holds exactly when at least one argument renders to a
      substring of the rendered value, so never without arguments. A
      throw while rendering the value, or else an argument, is what it
      throws. */
  lemma SomeMeansASubstring(val: Value, args: seq<Value>)
    ensures Internal.ToStringSafe(val).Normal? && ToStringSafeAll(args).Normal? ==>
              Some(val, args) == Normal(exists i :: 0 <= i < |args| && IsSubstring(Internal.ToStringSafe(args[i]).value, Internal.ToStringSafe(val).value))
    ensures Internal.ToStringSafe(val).Threw? ==> Some(val, args) == Threw(Internal.ToStringSafe(val).error)
    ensures Internal.ToStringSafe(val).Normal? && ToStringSafeAll(args).Threw? ==> Some(val, args) == Threw(ToStringSafeAll(args).error)
    ensures args == [] ==> Some(val, args).Threw? || Some(val, args) == Normal(false)
  {
    if Internal.ToStringSafe(val).Normal? && ToStringSafeAll(args).Normal? {
      RenderedArgumentsIncluded(Internal.ToStringSafe(val).value, args);
    }
  }

  // ---------------------------------------------------------------------
  // join, concat

  /** `join(sep, ...args)`: the rendered arguments joined with the
      rendered separator. The arguments are rendered first. */
  function Join(sep: Value, args: seq<Value>): Outcome<string> {
    match ToStringSafeAll(args)
    case Threw(e) => Threw(e)
    case Normal(xs) =>
      (match Internal.ToStringSafe(sep)
       case Threw(e) => Threw(e)
       case Normal(separator) => Normal(JoinText(xs, separator)))
  }

  /** `concat(...args)`: the rendered arguments joined with "". */
  function Concat(args: seq<Value>): Outcome<string> {
    match ToStringSafeAll(args)
    case Threw(e) => Threw(e)
    case Normal(xs) => Normal(JoinText(xs, ""))
  }

  /** `join` puts the rendered separator between each two neighbouring
      rendered arguments: nothing for no arguments, the lone argument's
      rendering for one, and one more separator and rendering for each
      further argument. */
  lemma JoinInterleaves(sep: Value, args: seq<Value>, a: Value)
    requires Internal.ToStringSafe(sep).Normal?
    ensures Join(sep, []) == Normal("")
    ensures Internal.ToStringSafe(a).Normal? ==> Join(sep, [a]) == Internal.ToStringSafe(a)
    ensures args != [] && ToStringSafeAll(args).Normal? && Internal.ToStringSafe(a).Normal? ==>
              Join(sep, args + [a]) == Normal(Join(sep, args).value + Internal.ToStringSafe(sep).value + Internal.ToStringSafe(a).value)
  {
    if Internal.ToStringSafe(a).Normal? {
      assert ToStringSafeAll([a]).value == [Internal.ToStringSafe(a).value];
    }
    if args != [] && ToStringSafeAll(args).Normal? && Internal.ToStringSafe(a).Normal? {
      var xs := ToStringSafeAll(args).value;
      var ys := ToStringSafeAll(args + [a]).value;
      assert ys == xs + [Internal.ToStringSafe(a).value] by {
        assert forall i :: 0 <= i < |args| ==> (args + [a])[i] == args[i];
      }
      assert ys[..|ys| - 1] == xs;
    }
  }

  /** `concat` is `join` with an empty separator. */
  lemma ConcatIsJoinWithEmptySeparator(args: seq<Value>)
    ensures Concat(args) == Join(Str(""), args)
  {
  }

  /** The strings of a list, one after another. */
  function Flatten(ss: seq<string>): string {
    if ss == [] then "" else Flatten(ss[..|ss| - 1]) + ss[|ss| - 1]
  }

  /** Total length of the strings of a list. */
  function TotalLength(ss: seq<string>): nat {
    if ss == [] then 0 else TotalLength(ss[..|ss| - 1]) + |ss[|ss| - 1]|
  }

  /** Joining interleaves: the joined text of `a + b` is that of `a`, the
      separator, and that of `b`. */
  lemma {:induction false} JoinTextAppend(a: seq<string>, b: seq<string>, sep: string)
    requires a != [] && b != []
    ensures JoinText(a + b, sep) == JoinText(a, sep) + sep + JoinText(b, sep)
    decreases |b|
  {
    var ab := a + b;
    if |b| == 1 {
      assert ab[..|ab| - 1] == a;
    } else {
      var b' := b[..|b| - 1];
      assert ab[..|ab| - 1] == a + b';
      JoinTextAppend(a, b', sep);
    }
  }

  /** The joined text holds every string and one separator between each
      two neighbours. */
  lemma {:induction false} JoinTextLength(ss: seq<string>, sep: string)
    requires ss != []
    ensures |JoinText(ss, sep)| == TotalLength(ss) + (|ss| - 1) * |sep|
  {
    if |ss| > 1 {
      JoinTextLength(ss[..|ss| - 1], sep);
    }
  }

  /** Joining with "" concatenates. */
  lemma {:induction false} JoinTextEmptySeparator(ss: seq<string>)
    ensures JoinText(ss, "") == Flatten(ss)
  {
    if |ss| > 1 {
      JoinTextEmptySeparator(ss[..|ss| - 1]);
    } else if |ss| == 1 {
      assert ss[..0] == [];
    }
  }

  /** `join(" + ", 1, "2")` gives "1 + 2". */
  lemma JoinExample()
    ensures Join(Str(" + "), [Num(1), Str("2")]) == Normal("1 + 2")
  {
    var args := [Num(1), Str("2")];
    assert DecimalText(1) == "1";
    assert Internal.ToStringSafe(Num(1)) == Normal("1");
    var r := ToStringSafeAll(args);
    assert r.Normal? && |r.value| == 2;
    assert r.value == ["1", "2"];
    assert JoinText(["1", "2"], " + ") == "1 + 2" by {
      assert ["1", "2"][..1] == ["1"];
    }
  }

  // ---------------------------------------------------------------------
  // str, lower, upper, trim, ltrim, rtrim

  /** `str(val)`: the safe rendering. */
  function StrOf(val: Value): (r: Outcome<string>)
    ensures val.Str? ==> r == Normal(val.s)
    ensures Internal.IsNil(val) ==> r == Normal("")
    ensures r.Normal? <==> Internal.ToStringSafe(val).Normal?
  {
    Internal.ToStringSafe(val)
  }

  /** Applies a string transformation to the safe rendering of a value,
      as every string built-in does. */
  function MapText(val: Value, f: string -> string): (r: Outcome<string>)
    ensures r.Threw? <==> Internal.ToStringSafe(val).Threw?
    ensures r.Threw? ==> r.error == Internal.ToStringSafe(val).error
    ensures r.Normal? ==> r.value == f(Internal.ToStringSafe(val).value)
  {
    match Internal.ToStringSafe(val)
    case Threw(e) => Threw(e)
    case Normal(s) => Normal(f(s))
  }

  /** `lower(val)`: JavaScript's Unicode lower-casing is a parameter. */
  function Lower(val: Value, toLowerCase: string -> string): (r: Outcome<string>)
    ensures r.Normal? <==> Internal.ToStringSafe(val).Normal?
    ensures r.Normal? ==> r.value == toLowerCase(Internal.ToStringSafe(val).value)
  {
    MapText(val, toLowerCase)
  }

  /** `upper(val)`: JavaScript's Unicode upper-casing is a parameter; it
      may change the length, as "ß" becomes "SS". */
  function Upper(val: Value, toUpperCase: string -> string): (r: Outcome<string>)
    ensures r.Normal? <==> Internal.ToStringSafe(val).Normal?
    ensures r.Normal? ==> r.value == toUpperCase(Internal.ToStringSafe(val).value)
  {
    MapText(val, toUpperCase)
  }

  /** The characters `trim` removes: WhiteSpace and LineTerminator of the
      ECMAScript grammar. */
  predicate IsWhiteSpace(c: char) {
    c == '\t' || c == '\n' || c == '\U{000B}' || c == '\U{000C}' || c == '\r' || c == ' '
    || c == '\U{00A0}' || c == '\U{1680}' || ('\U{2000}' <= c <= '\U{200A}')
    || c == '\U{2028}' || c == '\U{2029}' || c == '\U{202F}' || c == '\U{205F}'
    || c == '\U{3000}' || c == '\U{FEFF}'
  }

  /** Whether `s` has a white-space character at index `i`. */
  predicate WhiteAt(s: string, i: nat) {
    i < |s| && IsWhiteSpace(s[i])
  }

  /** Where the run of white space that starts at index `i` ends. */
  function LeadingWhiteFrom(s: string, i: nat): (k: nat)
    requires i <= |s|
    ensures i <= k <= |s|
    ensures forall j :: i <= j < k ==> WhiteAt(s, j)
    ensures k < |s| ==> !WhiteAt(s, k)
    decreases |s| - i
  {
    if i == |s| || !IsWhiteSpace(s[i]) then i else LeadingWhiteFrom(s, i + 1)
  }

  /** Where the run of white space that ends before index `j` begins. */
  function TrailingWhiteTo(s: string, j: nat): (k: nat)
    requires j <= |s|
    ensures k <= j
    ensures forall i :: k <= i < j ==> WhiteAt(s, i)
    ensures 0 < k ==> !WhiteAt(s, k - 1)
  {
    if j == 0 || !IsWhiteSpace(s[j - 1]) then j else TrailingWhiteTo(s, j - 1)
  }

  /** Where the leading white space of `s` ends. */
  function LeadingWhite(s: string): nat {
    LeadingWhiteFrom(s, 0)
  }

  /** Where the trailing white space of `s` begins. */
  function TrailingWhite(s: string): nat {
    TrailingWhiteTo(s, |s|)
  }

  /** `String.prototype.trimStart` */
  function TrimStart(s: string): string {
    s[LeadingWhite(s)..]
  }

  /** `String.prototype.trimEnd` */
  function TrimEnd(s: string): string {
    s[..TrailingWhite(s)]
  }

  /** `String.prototype.trim`: white space dropped at both ends. */
  function TrimBoth(s: string): string {
    TrimEnd(TrimStart(s))
  }

  /** A run of white space from `i` ends at the first character that is
      not white space, and nowhere else. */
  lemma {:induction false} LeadingWhiteFromUnique(s: string, i: nat, k: nat)
    requires i <= k <= |s| && forall j :: i <= j < k ==> WhiteAt(s, j)
    requires k < |s| ==> !WhiteAt(s, k)
    ensures LeadingWhiteFrom(s, i) == k
    decreases k - i
  {
    if i < k {
      assert WhiteAt(s, i);
      LeadingWhiteFromUnique(s, i + 1, k);
    }
  }

  /** A run of white space before `j` begins after the last character
      that is not white space, and nowhere else. */
  lemma {:induction false} TrailingWhiteToUnique(s: string, j: nat, k: nat)
    requires k <= j <= |s| && forall i :: k <= i < j ==> WhiteAt(s, i)
    requires 0 < k ==> !WhiteAt(s, k - 1)
    ensures TrailingWhiteTo(s, j) == k
    decreases j - k
  {
    if k < j {
      assert WhiteAt(s, j - 1);
      TrailingWhiteToUnique(s, j - 1, k);
    }
  }

  /** The leading white space ends at the first character that is not
      white space, and nowhere else. */
  lemma LeadingWhiteUnique(s: string, k: nat)
    requires k <= |s| && forall i :: 0 <= i < k ==> WhiteAt(s, i)
    requires k < |s| ==> !WhiteAt(s, k)
    ensures LeadingWhite(s) == k
  {
    LeadingWhiteFromUnique(s, 0, k);
  }

  /** The trailing white space begins after the last character that is
      not white space, and nowhere else. */
  lemma TrailingWhiteUnique(s: string, k: nat)
    requires k <= |s| && forall i :: k <= i < |s| ==> WhiteAt(s, i)
    requires 0 < k ==> !WhiteAt(s, k - 1)
    ensures TrailingWhite(s) == k
  {
    TrailingWhiteToUnique(s, |s|, k);
  }

  /** `trim` keeps the characters from the first to the last one that is
      not white space, whichever end is trimmed first. */
  lemma TrimKeepsTheMiddle(s: string)
    ensures LeadingWhite(s) < |s| ==> LeadingWhite(s) < TrailingWhite(s)
    ensures LeadingWhite(s) < |s| ==> TrimBoth(s) == TrimStart(TrimEnd(s)) == s[LeadingWhite(s)..TrailingWhite(s)]
    ensures LeadingWhite(s) == |s| ==> TrimBoth(s) == TrimStart(TrimEnd(s)) == []
  {
    var a := LeadingWhite(s);
    var b := TrailingWhite(s);
    if a == |s| {
      TrailingWhiteUnique(s, 0);
    } else {
      assert !WhiteAt(s, a);
      TrailingWhiteOfSuffix(s, a, b);
      LeadingWhiteOfPrefix(s, a, b);
    }
  }

  /** Dropping white space in front leaves the trailing white space where
      it was. */
  lemma TrailingWhiteOfSuffix(s: string, a: nat, b: nat)
    requires a < b <= |s| && forall i :: b <= i < |s| ==> WhiteAt(s, i)
    requires !WhiteAt(s, b - 1)
    ensures TrimEnd(s[a..]) == s[a..b]
  {
    var t := s[a..];
    forall i | b - a <= i < |t|
      ensures WhiteAt(t, i)
    {
      assert t[i] == s[a + i] && WhiteAt(s, a + i);
    }
    assert t[b - a - 1] == s[b - 1];
    TrailingWhiteUnique(t, b - a);
  }

  /** Dropping white space at the end leaves the leading white space
      where it was. */
  lemma LeadingWhiteOfPrefix(s: string, a: nat, b: nat)
    requires a < b <= |s| && forall i :: 0 <= i < a ==> WhiteAt(s, i)
    requires !WhiteAt(s, a)
    ensures TrimStart(s[..b]) == s[a..b]
  {
    var e := s[..b];
    forall i | 0 <= i < a
      ensures WhiteAt(e, i)
    {
      assert e[i] == s[i] && WhiteAt(s, i);
    }
    assert e[a] == s[a];
    LeadingWhiteUnique(e, a);
  }

  /** Trimming again changes nothing. */
  lemma TrimIdempotent(s: string)
    ensures TrimStart(TrimStart(s)) == TrimStart(s)
    ensures TrimEnd(TrimEnd(s)) == TrimEnd(s)
    ensures TrimBoth(TrimBoth(s)) == TrimBoth(s)
  {
    TrimStartIdempotent(s);
    TrimEndIdempotent(s);
    TrimBothIdempotent(s);
  }

  lemma TrimBothIdempotent(s: string)
    ensures TrimBoth(TrimBoth(s)) == TrimBoth(s)
  {
    TrimKeepsTheMiddle(s);
    var m := TrimBoth(s);
    if m != [] {
      var a, b := LeadingWhite(s), TrailingWhite(s);
      assert m == s[a..b];
      assert m[0] == s[a] && m[|m| - 1] == s[b - 1];
      assert !WhiteAt(m, 0) && !WhiteAt(m, |m| - 1);
    }
    TrimmedStaysTrimmed(m);
  }

  /** A string without white space at either end is its own trim. */
  lemma TrimmedStaysTrimmed(m: string)
    requires m != [] ==> !WhiteAt(m, 0) && !WhiteAt(m, |m| - 1)
    ensures TrimBoth(m) == m
  {
    LeadingWhiteUnique(m, 0);
    assert TrimStart(m) == m;
    TrailingWhiteUnique(m, |m|);
    assert TrimEnd(m) == m;
  }

  lemma TrimStartIdempotent(s: string)
    ensures TrimStart(TrimStart(s)) == TrimStart(s)
  {
    var t := TrimStart(s);
    if t != [] {
      assert t[0] == s[LeadingWhite(s)];
      assert !WhiteAt(t, 0);
    }
    LeadingWhiteUnique(t, 0);
  }

  lemma TrimEndIdempotent(s: string)
    ensures TrimEnd(TrimEnd(s)) == TrimEnd(s)
  {
    var e := TrimEnd(s);
    if e != [] {
      assert e[|e| - 1] == s[|e| - 1];
      assert !WhiteAt(e, |e| - 1);
    }
    TrailingWhiteUnique(e, |e|);
  }

  /** `ltrim(val)`: a suffix of the rendering that starts with a
      character that is not white space, all dropped characters being
      white space. */
  function LTrim(val: Value): (r: Outcome<string>)
    ensures r.Normal? <==> Internal.ToStringSafe(val).Normal?
    ensures r.Normal? ==>
              var s := Internal.ToStringSafe(val).value;
              && |r.value| <= |s| && r.value == s[|s| - |r.value|..]
              && (forall i :: 0 <= i < |s| - |r.value| ==> WhiteAt(s, i))
              && (r.value != [] ==> !WhiteAt(r.value, 0))
  {
    MapText(val, TrimStart)
  }

  /** `rtrim(val)`: a prefix of the rendering that ends with a character
      that is not white space, all dropped characters being white
      space. */
  function RTrim(val: Value): (r: Outcome<string>)
    ensures r.Normal? <==> Internal.ToStringSafe(val).Normal?
    ensures r.Normal? ==>
              var s := Internal.ToStringSafe(val).value;
              && |r.value| <= |s| && r.value == s[..|r.value|]
              && (forall i :: |r.value| <= i < |s| ==> WhiteAt(s, i))
              && (r.value != [] ==> !WhiteAt(r.value, |r.value| - 1))
  {
    MapText(val, TrimEnd)
  }

  /** `trim(val)` */
  function Trim(val: Value): Outcome<string> {
    MapText(val, TrimBoth)
  }

  /** What the trim built-ins give for a rendered value: `ltrim` drops
      the leading white space, `rtrim` the trailing, and `trim` keeps
      exactly the part between the first and the last character that is
      not white space (nothing when there is none). A failed rendering is
      what all three throw. */
  lemma TrimBuiltins(val: Value)
    ensures Internal.ToStringSafe(val).Threw? ==> LTrim(val).Threw? && RTrim(val).Threw? && Trim(val).Threw?
    ensures Internal.ToStringSafe(val).Normal? ==>
              var s := Internal.ToStringSafe(val).value;
              LTrim(val) == Normal(s[LeadingWhite(s)..]) && RTrim(val) == Normal(s[..TrailingWhite(s)])
              && Trim(val) == Normal(if LeadingWhite(s) < |s| then s[LeadingWhite(s)..TrailingWhite(s)] else [])
  {
    if Internal.ToStringSafe(val).Normal? {
      TrimKeepsTheMiddle(Internal.ToStringSafe(val).value);
    }
  }

  // ---------------------------------------------------------------------
  // log, regex

  /** `log(val, result = true)`: writes `val` to the console, which is
      not modelled, and returns `result`, or true when it is undefined. */
  function Log(val: Value, result: Value): (r: Value)
    ensures result.Undefined? ==> r == Bool(true)
    ensures !result.Undefined? ==> r == result
  {
    if result.Undefined? then Bool(true) else result
  }

  /** The inputs `regex(val, pattern, flags = 'i')` hands to `new RegExp`
      and `test`: the rendered value, the rendered pattern, and the
      rendered flags unless they render to "" (then no flags at all). */
  datatype RegexCall = RegexCall(subject: string, pattern: string, flags: RegexFlags)

  /** The second argument of `new RegExp`: undefined, or a flags text. */
  datatype RegexFlags = NoFlags | FlagText(text: string)

  /** Renders the arguments of `regex` in the order the code does: value,
      pattern, flags. */
  function RegexArguments(val: Value, pattern: Value, flags: Value): Outcome<RegexCall> {
    match Internal.ToStringSafe(val)
    case Threw(e) => Threw(e)
    case Normal(s) =>
      (match Internal.ToStringSafe(pattern)
       case Threw(e) => Threw(e)
       case Normal(p) =>
         var f := if flags.Undefined? then Str("i") else flags;
         (match Internal.ToStringSafe(f)
          case Threw(e) => Threw(e)
          case Normal(ft) => Normal(RegexCall(s, p, if ft == "" then NoFlags else FlagText(ft)))))
  }

  /** `regex(val, pattern, flags)`: the regular-expression engine, which
      may also throw on a malformed pattern or flags, is a parameter. */
  function Regex(val: Value, pattern: Value, flags: Value, test: RegexCall -> Outcome<bool>): Outcome<bool> {
    match RegexArguments(val, pattern, flags)
    case Threw(e) => Threw(e)
    case Normal(call) => test(call)
  }

  /** Matching is case-insensitive unless flags are given; null or ""
      flags mean none at all. */
  lemma RegexFlagDefaults(val: Value, pattern: Value, flags: string)
    requires Internal.ToStringSafe(val).Normal? && Internal.ToStringSafe(pattern).Normal?
    ensures RegexArguments(val, pattern, Undefined).Normal?
    ensures RegexArguments(val, pattern, Undefined).value.flags == FlagText("i")
    ensures RegexArguments(val, pattern, Null).value.flags == NoFlags
    ensures RegexArguments(val, pattern, Str(flags)).value.flags == (if flags == "" then NoFlags else FlagText(flags))
    ensures RegexArguments(val, pattern, Str(flags)).value.subject == Internal.ToStringSafe(val).value
    ensures RegexArguments(val, pattern, Str(flags)).value.pattern == Internal.ToStringSafe(pattern).value
  {
  }
}
