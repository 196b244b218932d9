# log-filter in Dafny

A Dafny model of `@egomobile/log-filter`, a package that turns filter
expressions into a filter for the `@egomobile/log` logger. The main entry
point is `withFilterExpression(expression, options)`. It checks its options
once and compiles every expression once. It then gives back a function that
the logger calls with `(type, args)` before each entry is written; the entry
is written when that function answers true.

The project has four modules, one per file:

- `JsValues` (`js_values.dfy`) holds the JavaScript values the package
  handles. `Outcome` is a computation that completes normally or throws a
  value. The module also has the ECMAScript operations the code relies on:
  truthiness, `typeof`, ToString, `Array.prototype.join`, property access
  (with ToPropertyKey) and `Object.entries`.
- `Internal` (`internal.dfy`) models `src/utils/internal.ts`. It has `isNil`
  and the ordered case split of `toStringSafe`. It also has the choice
  `getTime` makes between a named time zone, local time and the time as
  given.
- `Builtins` (`builtins.dfy`) holds the pure built-ins of
  `commonFilterFunctions`: `len`, `item`, `typeOf`, the `is*` tests,
  `every`, `some`, `join`, `concat`, `str`, `lower`, `upper`, the trim
  family, `log` and the argument handling of `regex`.
- `LogFilter` (`log_filter.dfy`) models `withFilterExpression`:
  - the option checks, in the order the code makes them;
  - the function table, which is the built-ins overridden by
    `extraFunctions`;
  - the "and"/"or" combinator over the compiled predicates;
  - the filter itself.

The filter is a method, `Evaluate`, written the way the closure in
`src/index.ts` works. It seeds a map of constants. It fills in `arg<i>` and
`message<i>` in one while loop, and the extra constants in a second one.
Only the vote of the predicates sits inside the try. Each loop is proved
equal to a recursive specification function, and the lemmas are stated
about those functions.

What lies outside the package is a parameter, the `Host`:

- the numeric values of the log types;
- what calling a JavaScript function value does;
- the `filtrex` expression compiler.

`regex` takes its regular-expression engine as a parameter, and `lower` and
`upper` take their Unicode case mapping.

Where the documentation and the code disagree, the model follows the code:

- The doc comment of `behavior` (src/index.ts:78) says the default is
  'or'. The code turns a nil `behavior` into 'and' (src/index.ts:656).
  Any value whose `length` is falsy becomes 'or'. That covers "", and also
  numbers and booleans, which have no `length`.
- `getExtraConstants`, the function-valued extra constants and the
  `toStringSafe` calls on the arguments all run before the `try`. A throw
  from any of them is not turned into `fallbackValue`; it reaches the
  logger.
- An extra constant whose value is undefined, or a function that returns
  undefined, is stored as undefined. It overwrites a seeded constant of
  the same name rather than leaving it alone.
- `toStringSafe` is described as always giving a string. It throws when
  the value's own `toString` throws. It also throws when an array holds an
  object that cannot be converted to a primitive.
  `Internal.ToStringSafeCompletesIff` says exactly when it completes.
- The helper `createLogWithFilter` in src/__tests__/_utils.ts takes only
  expressions. The getExtraConstants test and the extraFunctions test
  (src/__tests__/functions/extraFunctions.test.ts:22-28) hand it an
  options object as a second argument, so that object becomes a second
  expression.
  `LogFilter.ExtraConstantsScenario` states what that test means to check.

## Model

| member | source | states |
|---|---|---|
| `Internal.ToStringSafe` | src/utils/internal.ts:33-40 | a string comes back unchanged; null and undefined give "" |
| `Internal.ToStringSafeCompletesIff` | src/utils/internal.ts:33-55 | `toStringSafe` completes exactly on the values whose ToString completes, plus a top-level object or error without a callable toString |
| `Internal.ToStringSafeAgreesWithString` | src/utils/internal.ts:42-55 | with a callable toString the result is `String(val)`; nil gives "" where `String` gives "undefined"/"null"; an object or error without toString renders where `String` throws |
| `Internal.ToStringShadowsErrorAndJson` | src/utils/internal.ts:42-52 | an object or error with a callable toString is rendered by it; only without one does an error give "[ERROR]: name, message, stack" separated by blank lines, and an object its JSON text |
| `Internal.JsToStringCompletesIff` | src/utils/internal.ts:54 | `String(val)` completes exactly when every object and error inside the value has a toString that returns |
| `Internal.GetTimeMode` | src/utils/internal.ts:18-26 | a string selects a named zone ("" selects "UTC"); a truthy non-string selects local time; a falsy non-string leaves the time as given; each of these is an if-and-only-if |
| `Builtins.ToStringSafeAll` | src/index.ts:122-123 | rendering the arguments completes iff each one renders; the results are the renderings in order; otherwise the first throw is the one thrown |
| `Builtins.Len` | src/index.ts:335-341 | 0 for every falsy value; the length of a string or array; undefined for truthy booleans and numbers |
| `Builtins.ItemOfArray` | src/index.ts:289-298 | on an array, index k in range gives items[k], -n <= k < 0 gives items[n+k], anything else undefined |
| `Builtins.ItemOfString` | src/index.ts:289-298 | on a string, the same indexing gives one-character strings |
| `Builtins.ItemOfIndexText` | src/index.ts:289-298 | a key that is the decimal text of an index names the same element as the number |
| `Builtins.ItemDefaultsAndNil` | src/index.ts:289-298 | without a key `item` gives the first element (or undefined for an empty array); on null or undefined it gives undefined for any key |
| `Builtins.TypeOf` | src/index.ts:583-592 | "null" iff the value is null, "array" iff it is an array, otherwise the `typeof` name |
| `Builtins.TypeTests` | src/index.ts:205-270 | `isNil` iff `isNull` or `isUndefined`; those two exclude each other; nil is falsy; `isFalsy` is the negation of `isTruthy`; `isUndefined` iff `typeOf` gives "undefined" |
| `Builtins.IncludesIff` | src/index.ts:185 | `s.includes(x)` holds exactly when x occurs in s at some position |
| `Builtins.RenderedArgumentsIncluded` | src/index.ts:183-185 | for each rendered argument, `includes` agrees with occurring as a substring |
| `Builtins.EveryMeansAllSubstrings` | src/index.ts:180-186 | `every` is true iff every rendered argument is a substring of the rendered value (so true with no arguments); a rendering throw propagates, the value's first |
| `Builtins.SomeMeansASubstring` | src/index.ts:502-508 | `some` is true iff some rendered argument is a substring of the rendered value (so false with no arguments); a rendering throw propagates, the value's first |
| `Builtins.JoinInterleaves` | src/index.ts:313-317 | `join` of no arguments is "", of one its rendering, and each further argument adds the rendered separator and its rendering |
| `Builtins.ConcatIsJoinWithEmptySeparator` | src/index.ts:121-125 | `concat(...args)` equals `join("", ...args)` |
| `Builtins.JoinTextAppend` | src/index.ts:316 | joining `a + b` is joining a, the separator, then joining b |
| `Builtins.JoinTextLength` | src/index.ts:316 | the joined text has the total length of the parts plus one separator between each two neighbours |
| `Builtins.JoinTextEmptySeparator` | src/index.ts:124 | joining with "" concatenates the parts |
| `Builtins.JoinExample` | src/index.ts:313-317 | `join(" + ", 1, "2")` gives "1 + 2" |
| `Builtins.MapText` | src/index.ts:548-550 | the string built-ins throw exactly when rendering their argument throws, with that error; otherwise they give the transformation applied to the rendering |
| `Builtins.StrOf` | src/index.ts:548-550 | `str` gives a string back unchanged and "" for null and undefined, and completes exactly when the safe rendering does |
| `Builtins.Lower` | src/index.ts:372-374 | `lower` completes exactly when its argument renders, and then gives the lower-case mapping of the rendering |
| `Builtins.Upper` | src/index.ts:605-607 | `upper` completes exactly when its argument renders, and then gives the upper-case mapping of the rendering |
| `Builtins.LTrim` | src/index.ts:387-389 | `ltrim` gives a suffix of the rendering; every dropped character is white space and the result does not start with white space |
| `Builtins.RTrim` | src/index.ts:466-468 | `rtrim` gives a prefix of the rendering; every dropped character is white space and the result does not end with white space |
| `Builtins.LeadingWhiteFrom` | src/index.ts:387-389 | a run of white space from an index ends at the first character that is not white space, or at the end |
| `Builtins.TrailingWhiteTo` | src/index.ts:466-468 | a run of white space before an index begins after the last character that is not white space, or at the start |
| `Builtins.LeadingWhiteUnique` | src/index.ts:387-389 | the leading white space of a string ends exactly at its first character that is not white space, and nowhere else |
| `Builtins.TrailingWhiteUnique` | src/index.ts:466-468 | the trailing white space of a string begins exactly after its last character that is not white space, and nowhere else |
| `Builtins.TrimKeepsTheMiddle` | src/index.ts:563-565 | trimming both ends in either order keeps exactly the part between the first and the last character that is not white space; an all-white string trims to "" |
| `Builtins.TrimIdempotent` | src/index.ts:563-565 | trimming a second time changes nothing, for each of the three trims |
| `Builtins.TrimBuiltins` | src/index.ts:563-565 | `ltrim`, `rtrim` and `trim` of a value are the trims of its rendering, and a rendering throw propagates |
| `Builtins.Log` | src/index.ts:356-359 | `log(val, result)` returns `result`, or true when it is undefined |
| `Builtins.RegexFlagDefaults` | src/index.ts:448-453 | with no flags the pattern gets "i"; null or "" flags mean none; other flags, the value and the pattern are passed on rendered |
| `LogFilter.DefaultTrue` | src/index.ts:653-654 | `emptyValue` and `fallbackValue` are true when undefined and otherwise the truthiness of the option |
| `LogFilter.NormalizeBehavior` | src/index.ts:656-662 | nil gives "and"; "" gives "or"; "and" and "or" are accepted; it throws exactly when the value is not nil, its `length` is truthy and it is neither "and" nor "or", and the error is the TypeError naming both values |
| `LogFilter.ExpressionList` | src/index.ts:664-673 | a string becomes a one-element list; an array is accepted iff all its elements are strings, and then the list holds them in order; otherwise a TypeError is thrown |
| `LogFilter.ExtraConstantsOption` | src/index.ts:675-678 | a falsy option selects the null-returning default; a function is used as given; anything else throws "options.getExtraConstants must be of type function", and only then |
| `LogFilter.BuiltinTable` | src/index.ts:681-682 | the table holds exactly the 32 built-in names, each bound to its own built-in |
| `LogFilter.Override` | src/index.ts:681-684 | spreading entries over a table removes no name and adds every entry's name |
| `LogFilter.OverrideEntries` | src/index.ts:681-684 | after spreading entries over a table, a name no entry mentions keeps its entry, and a mentioned name holds the value of its last entry |
| `LogFilter.FunctionTableOf` | src/index.ts:681-684 | every built-in name stays callable, and every name of a truthy `extraFunctions` is added |
| `LogFilter.FunctionTableContents` | src/index.ts:681-684 | the compiler's table maps a name no `extraFunctions` entry mentions to the built-in of that name if there is one, and a mentioned name to its last entry's value |
| `LogFilter.CompileAll` | src/index.ts:686-688 | compiling completes iff every expression compiles; predicate i is then what expression i compiles to; otherwise the error is that of the first expression that fails to compile |
| `LogFilter.WithFilterExpression` | src/index.ts:652-696 | setup throws the behavior error first, then the expression error, then the getExtraConstants error; once those pass it succeeds iff the list is empty or every expression compiles, and a compile error is what it throws; the filter is disabled iff the list is empty; an active filter holds the behavior, the compiled expressions in order (compiled against the built-ins overridden by `extraFunctions`), the `getExtraConstants` source and the coerced `fallbackValue`; a disabled one the coerced `emptyValue` |
| `LogFilter.Combine` | src/index.ts:690-696 | the vote throws only the error of a predicate that throws with no deciding predicate before it, and answers the deciding value only when some predicate completed with a deciding result |
| `LogFilter.CombineAllComplete` | src/index.ts:690-696 | when every predicate completes, "and" is true iff all results are truthy and "or" iff one is |
| `LogFilter.CombineStopsAtFirstDecision` | src/index.ts:690-696 | the first predicate that throws, or is falsy under "and" or truthy under "or", decides the answer; the predicates after it are never run |
| `LogFilter.CombineWithoutDecision` | src/index.ts:690-696 | when no predicate decides, "and" gives true and "or" false |
| `LogFilter.ArgKeysDistinct` | src/index.ts:724-727 | the `arg<i>` and `message<i>` keys are pairwise distinct and differ from every seeded key |
| `LogFilter.SeedNamesTheType` | src/index.ts:706-711 | when the log types have distinct values, `isX` is true exactly when the type is X |
| `LogFilter.SeedValues` | src/index.ts:699-719 | `severity` is the lower-cased type name, `type` its value, `args` the arguments, and the literals are true, false, null and undefined |
| `LogFilter.ArgConstantsFrom` | src/index.ts:724-727 | the loop over the arguments removes no key, and throws only the error of the first argument whose rendering throws |
| `LogFilter.ArgConstantsContents` | src/index.ts:724-727 | the loop over the arguments completes iff every argument renders, and then holds each argument under `arg<i>` and its rendering under `message<i>` |
| `LogFilter.ArgsKeepEarlierKeys` | src/index.ts:724-727 | later iterations leave the keys of earlier arguments alone |
| `LogFilter.ArgLoopKeeps` | src/index.ts:724-727 | the loop over the arguments leaves every seeded key as it was |
| `LogFilter.SeedSurvivesArguments` | src/index.ts:699-727 | no seeded key has the shape of `arg<i>` or `message<i>`, so every seeded constant is still in place after the loop over the arguments |
| `LogFilter.ExtraConstantsFrom` | src/index.ts:736-742 | the loop over the extra constants removes no key and, when it completes, holds every entry's name |
| `LogFilter.ExtraConstantsContents` | src/index.ts:736-742 | a name no entry mentions keeps its value; the last entry with a name decides it when what that entry gives does not depend on the context (a plain value, or a function whose result is the same in every context) |
| `LogFilter.ExtraConstantsSplit` | src/index.ts:736-742 | running the loop from entry j is running the entries before k, then going on from k with the map they left: each entry sees the live map |
| `LogFilter.ExtraConstantsLastEntry` | src/index.ts:729-742 | the last entry with a name decides it: its value is what that entry gives when called with the constants as the entries before it left them |
| `LogFilter.ExtraConstantsSeeEarlierEntries` | src/index.ts:729-742 | a function entry reading a constant stored by an earlier entry sees that entry's value, not the value from before the loop |
| `LogFilter.ExtraConstantsComplete` | src/index.ts:737-741 | the loop over the extra constants completes when no function entry throws, whatever its context |
| `LogFilter.ExtraConstantsFirstThrow` | src/index.ts:737-741 | an entry that throws when called with the map the entries before it left ends the loop with that error |
| `LogFilter.ExtraConstantsThrowHasEntry` | src/index.ts:737-741 | the loop throws only through such an entry, so it completes exactly when no entry throws in its live context |
| `LogFilter.ArgumentThrowEndsCall` | src/index.ts:724-727 | a call whose arguments do not all render throws the error of the first argument whose rendering throws |
| `LogFilter.ExtraConstantsThrowEndsCall` | src/index.ts:729-742 | once the arguments render, a throw from `getExtraConstants` called with the constants so far, or from the first extra constant that throws in the live map, is what the call throws |
| `LogFilter.ConstantsThrowReachesLogger` | src/index.ts:724-748 | a throw while building the constants is what a call of an active filter throws; it is not turned into `fallbackValue` |
| `LogFilter.AddArgConstants` | src/index.ts:724-727 | the while loop over the arguments builds exactly the map its specification function describes |
| `LogFilter.AddExtraConstants` | src/index.ts:737-741 | the while loop over the extra constants, each function called with the live map, builds exactly the map its specification function describes |
| `LogFilter.Evaluate` | src/index.ts:698-749 | one call of the filter answers `FilterResult`: `emptyValue` when disabled; otherwise a throw while building the constants propagates, a throw from the vote gives `fallbackValue`, and otherwise the vote is the answer |
| `LogFilter.ArgumentConstantsOfACall` | src/index.ts:699-727 | without extra constants, a call's constants are complete iff every argument renders, and then `arg<i>` is args[i] and `message<i>` its rendering |
| `LogFilter.TypeFlagsOfACall` | src/index.ts:706-711 | the expressions of a call see `isX` true exactly for the call's type X |
| `LogFilter.SeededValuesOfACall` | src/index.ts:712-718 | the expressions of a call see `severity`, `type`, `args` and the literals as seeded |
| `LogFilter.VoteAnswer` | src/index.ts:744-748 | with every predicate completing, "and" votes whether all results are truthy and "or" whether one is; when the first deciding predicate throws, the vote is `fallbackValue` |
| `LogFilter.ActiveFilterAnswer` | src/index.ts:729-748 | a call throws iff building its constants throws; otherwise, with all predicates completing, "and" answers whether all are truthy and "or" whether one is, and when the first deciding predicate throws the answer is `fallbackValue` |
| `LogFilter.NoExpressionsMeansEmptyValue` | src/index.ts:750-752 | with no expressions, every call answers `emptyValue` |
| `LogFilter.ExtraConstantsScenario` | src/__tests__/constants/getExtraConstants.test.ts:20-33 | a supplier giving foo: 'bar', error: a function giving 'baz', warn: undefined and info: null makes the expressions see exactly those four values |
| `LogFilter.ScenarioEntries` | src/index.ts:737-741 | those four entries, applied over any map, leave exactly those values |

## Left out

- Date built-ins (`day`, `hour`, `minute`, `month`, `ms`, `second`, `year`, `isoWeek`, `isoWeekday`, `now`, `startOf`, `endOf`): their result is dayjs arithmetic in time zones. Only the mode that `getTime` picks is modelled (`Internal.GetTimeMode`); the `.tz()` and `.local()` conversions and the clock are not.
- `regex`: the RegExp engine, including its errors on a malformed pattern, is the parameter `test`. Only the rendering of the arguments and the flag default are modelled.
- `log`: the console output is not modelled, only the value it returns.
- `lower` and `upper`: Unicode case mapping is a parameter, so no property of the mapping itself is stated.
- `compileExpression` from `filtrex` is the `Host.compile` parameter, and a compiled expression is any function from the constants to a result or a throw. The expression language is not modelled.
- `JSON.stringify` and `Error.prototype.stack`: their texts are data carried by the value (`Obj.json`, `Err.stack`), not computed.
- Numbers are integers: floats, NaN, -0 and the number-to-text rules for them are not modelled. A length that is undefined plus a negative key gives the key "NaN", as in JavaScript.
- Strings are sequences of characters, not UTF-16 code units, so lengths and indices differ from JavaScript's for characters outside the Basic Multilingual Plane.
- Objects have only own, enumerable, string-keyed data properties in order. Prototype chains, getters, symbols, `__proto__` keys, sparse arrays and a `some` property on a non-array expression are not modelled. Booleans and numbers have no properties at all. Property names are not required to be distinct (reading takes the first, spreading and the loop over extra constants let the last win; with distinct names, as in JavaScript, the two agree), and an object's `toString` is held apart from its other properties, so a property named "toString" is not checked against it.
- An object's own `toString` yields a string or throws; a toString that returns a non-string, and `String()` of that result, is not modelled.
- Function values are told apart by an identifier. What calling one does is the `Host.run` parameter. A function that mutates the shared context beyond its own result, or keeps a reference to `args`, is not modelled.
- LogType values come from `@egomobile/log` and are a parameter. `severity` uses the type's member name, which is `LogType[type]` only when the six values are distinct.
- LogFilter.SeedNamesTheType, LogFilter.TypeFlagsOfACall: state the `isX` flags only for distinct log-type values, because with equal values two flags would be true at once.
- LogFilter.ArgumentConstantsOfACall, LogFilter.TypeFlagsOfACall, LogFilter.SeededValuesOfACall: state the constants of a call without extra constants; with them, `LogFilter.ExtraConstantsContents` says which keys the extra constants overwrite.
- Builtins.ItemOfArray, Builtins.ItemOfString, Builtins.ItemOfIndexText: state `item` for numeric keys and their decimal texts only; other keys go through ToPropertyKey in `Builtins.Item`, which has no lemma of its own.
