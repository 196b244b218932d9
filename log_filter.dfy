/// `withFilterExpression`: validates its options once, compiles every
/// expression once, and gives back a filter that the logger calls with
/// `(type, args)` before each entry is written. Each call builds a fresh
/// map of constants, lets the compiled predicates vote with "and" or
/// "or", and falls back to a fixed answer when a predicate throws.
module LogFilter {
  import opened JsValues
  import Internal
  import Builtins

  // ---------------------------------------------------------------------
  // The environment

  /** The log levels of the logging framework. Their numeric values
      belong to that framework and are a parameter of the model (see
      `Host.levelValue`). */
  datatype LogType = Debug | Default | Error | Info | Trace | Warn

  /** `LogType[type].toLowerCase()`: the lower-cased member name. */
  function LowerName(t: LogType): string {
    match t
    case Debug => "debug"
    case Default => "default"
    case Error => "error"
    case Info => "info"
    case Trace => "trace"
    case Warn => "warn"
  }

  /** The context handed to `getExtraConstants` and to function-valued
      extra constants: the call's arguments, the constants built so far,
      and the log type. */
  datatype Context = Context(args: seq<Value>, constants: map<string, Value>, logType: LogType)

  /** An entry of the function table an expression may call: one of the
      built-ins by name, or a value supplied through `extraFunctions`. */
  datatype Callable = Builtin(name: string) | Supplied(f: Value)

  type FunctionTable = map<string, Callable>

  /** A compiled expression: from the constants to its result, or a
      throw. */
  type Predicate = map<string, Value> -> Outcome<Value>

  /** What lies outside this package: the numeric value of each log type,
      what calling a function value does, and the expression compiler,
      which may reject an expression by throwing. */
  datatype Host = Host(
    levelValue: LogType -> int,
    run: (Value, Context) -> Outcome<Value>,
    compile: (string, FunctionTable) -> Outcome<Predicate>)

  /** How the results of several expressions are combined. */
  datatype Behavior = And | Or

  /** Where extra constants come from: the default, which gives null, or
      a function supplied as `getExtraConstants`. */
  datatype ExtraConstantsSource = NullSupplier | Supplier(f: Value)

  /** A configured filter: switched off because there are no
      expressions, or the compiled predicates with what each call needs. */
  datatype Filter =
    | Disabled(emptyValue: bool)
    | Active(behavior: Behavior, predicates: seq<Predicate>, extraConstants: ExtraConstantsSource, fallbackValue: bool)

  // ---------------------------------------------------------------------
  // Setup: withFilterExpression

  /** `options?.[name]` */
  function OptionField(options: Value, name: string): Value {
    if Internal.IsNil(options) then Undefined else GetProp(options, Name(name))
  }

  /** `typeof v === 'undefined' ? true : !!v`, as `emptyValue` and
      `fallbackValue` are read. */
  function DefaultTrue(v: Value): (r: bool)
    ensures r <==> v.Undefined? || Truthy(v)
  {
    if v.Undefined? then true else Truthy(v)
  }

  const BehaviorMessage := "options.behavior must be one of the following values: and,or"

  /** Reads `behavior`: a nil value means "and", any value whose
      `length` is falsy means "or", and after that only the strings
      "and" and "or" are accepted. */
  function NormalizeBehavior(behavior: Value): (r: Outcome<Behavior>)
    ensures Internal.IsNil(behavior) ==> r == Normal(And)
    ensures behavior == Str("") ==> r == Normal(Or)
    ensures behavior == Str("and") ==> r == Normal(And)
    ensures behavior == Str("or") ==> r == Normal(Or)
    ensures r.Threw? <==> !Internal.IsNil(behavior) && Truthy(GetProp(behavior, Name("length")))
                           && behavior != Str("and") && behavior != Str("or")
    ensures r.Threw? ==> r.error == TypeError(BehaviorMessage)
  {
    var b := if Internal.IsNil(behavior) then Str("and") else behavior;
    var b' := if !Truthy(GetProp(b, Name("length"))) then Str("or") else b;
    if b' == Str("and") then Normal(And)
    else if b' == Str("or") then Normal(Or)
    else Threw(TypeError(BehaviorMessage))
  }

  const ExpressionTypeMessage := "all expressions must be of type string"

  /** The error the runtime raises when `listOfExpressions.some` is used
      on a value that is not an array. */
  function NotAnArrayError(expression: Value): Value {
    if expression.Undefined? then TypeError("Cannot read properties of undefined (reading 'some')")
    else if expression.Null? then TypeError("Cannot read properties of null (reading 'some')")
    else TypeError("listOfExpressions.some is not a function")
  }

  /** The list of expressions: a lone string becomes a one-element list,
      an array must hold strings only. */
  function ExpressionList(expression: Value): (r: Outcome<seq<string>>)
    ensures expression.Str? ==> r == Normal([expression.s])
    ensures expression.Arr? ==>
              (r.Normal? <==> forall i :: 0 <= i < |expression.items| ==> expression.items[i].Str?)
    ensures expression.Arr? && r.Normal? ==>
              |r.value| == |expression.items| && forall i :: 0 <= i < |r.value| ==> expression.items[i] == Str(r.value[i])
    ensures expression.Arr? && r.Threw? ==> r.error == TypeError(ExpressionTypeMessage)
    ensures !expression.Str? && !expression.Arr? ==> r.Threw?
  {
    match expression
    case Str(s) => Normal([s])
    case Arr(items) =>
      if exists i :: 0 <= i < |items| && !items[i].Str? then Threw(TypeError(ExpressionTypeMessage))
      else Normal(seq(|items|, i requires 0 <= i < |items| => items[i].s))
    case _ => Threw(NotAnArrayError(expression))
  }

  const ExtraConstantsMessage := "options.getExtraConstants must be of type function"

  /** `options?.getExtraConstants || (() => null)`, which must then be a
      function. */
  function ExtraConstantsOption(getExtraConstants: Value): (r: Outcome<ExtraConstantsSource>)
    ensures !Truthy(getExtraConstants) ==> r == Normal(NullSupplier)
    ensures getExtraConstants.Fn? ==> r == Normal(Supplier(getExtraConstants))
    ensures r.Threw? <==> Truthy(getExtraConstants) && !getExtraConstants.Fn?
    ensures r.Threw? ==> r.error == TypeError(ExtraConstantsMessage)
  {
    if !Truthy(getExtraConstants) then Normal(NullSupplier)
    else if getExtraConstants.Fn? then Normal(Supplier(getExtraConstants))
    else Threw(TypeError(ExtraConstantsMessage))
  }

  /** The built-ins, each under its own name. */
  function BuiltinTable(): (table: FunctionTable)
    ensures forall name :: name in table <==> name in Builtins.Names
    ensures forall name :: name in table ==> table[name] == Builtin(name)
  {
    map name | name in Builtins.Names :: Builtin(name)
  }

  /** `{...table, ...entries}`: the entries are copied in order, so a
      later entry wins over an earlier one and over the table. */
  function Override(table: FunctionTable, entries: seq<(string, Value)>): (r: FunctionTable)
    ensures table.Keys <= r.Keys
    ensures forall l :: 0 <= l < |entries| ==> entries[l].0 in r
    decreases |entries|
  {
    if entries == [] then table
    else Override(table[entries[0].0 := Supplied(entries[0].1)], entries[1..])
  }

  /** The table handed to the compiler: the built-ins, overridden by the
      own entries of `extraFunctions` when that is truthy. */
  function FunctionTableOf(extraFunctions: Value): (r: FunctionTable)
    ensures forall name :: name in Builtins.Names ==> name in r
    ensures Truthy(extraFunctions) ==>
              forall l :: 0 <= l < |OwnEntries(extraFunctions)| ==> OwnEntries(extraFunctions)[l].0 in r
  {
    Override(BuiltinTable(), if Truthy(extraFunctions) then OwnEntries(extraFunctions) else [])
  }

  /** Whether no entry from index `from` on has the given name. */
  predicate NotNamedFrom(entries: seq<(string, Value)>, from: nat, name: string) {
    forall l :: from <= l < |entries| ==> entries[l].0 != name
  }

  /** A name no entry mentions keeps its place in the table; the last
      entry with a name decides it. */
  lemma {:induction false} OverrideEntries(table: FunctionTable, entries: seq<(string, Value)>, name: string, k: nat)
    ensures NotNamedFrom(entries, 0, name) ==>
              (name in Override(table, entries) <==> name in table)
              && (name in table ==> Override(table, entries)[name] == table[name])
    ensures k < |entries| && entries[k].0 == name && NotNamedFrom(entries, k + 1, name) ==>
              name in Override(table, entries) && Override(table, entries)[name] == Supplied(entries[k].1)
    decreases |entries|
  {
    if entries != [] {
      var table' := table[entries[0].0 := Supplied(entries[0].1)];
      assert Override(table, entries) == Override(table', entries[1..]);
      if k == 0 {
        OverrideEntries(table', entries[1..], name, 0);
        if entries[0].0 == name && NotNamedFrom(entries, 1, name) {
          assert NotNamedFrom(entries[1..], 0, name) by {
            forall l | 0 <= l < |entries[1..]| ensures entries[1..][l].0 != name {
              assert entries[1..][l] == entries[l + 1];
            }
          }
        }
      } else {
        OverrideEntries(table', entries[1..], name, k - 1);
        if k < |entries| && entries[k].0 == name && NotNamedFrom(entries, k + 1, name) {
          assert entries[1..][k - 1] == entries[k];
          assert NotNamedFrom(entries[1..], k, name) by {
            forall l | k <= l < |entries[1..]| ensures entries[1..][l].0 != name {
              assert entries[1..][l] == entries[l + 1];
            }
          }
        }
      }
      if NotNamedFrom(entries, 0, name) {
        assert entries[0].0 != name;
        assert NotNamedFrom(entries[1..], 0, name) by {
          forall l | 0 <= l < |entries[1..]| ensures entries[1..][l].0 != name {
            assert entries[1..][l] == entries[l + 1];
          }
        }
      }
    }
  }

  /** Compiles every expression in order; the first compile error is
      what setup throws. */
  function CompileAll(host: Host, expressions: seq<string>, table: FunctionTable): (r: Outcome<seq<Predicate>>)
    ensures r.Normal? <==> forall i :: 0 <= i < |expressions| ==> host.compile(expressions[i], table).Normal?
    ensures r.Normal? ==>
              && |r.value| == |expressions|
              && forall i :: 0 <= i < |expressions| ==> r.value[i] == host.compile(expressions[i], table).value
    ensures r.Threw? ==>
              exists k :: 0 <= k < |expressions| && host.compile(expressions[k], table) == Threw(r.error)
                && forall i :: 0 <= i < k ==> host.compile(expressions[i], table).Normal?
  {
    var outs := seq(|expressions|, i requires 0 <= i < |expressions| => host.compile(expressions[i], table));
    assert forall i :: 0 <= i < |expressions| ==> outs[i] == host.compile(expressions[i], table);
    Sequence(outs)
  }

  /** `withFilterExpression(expression, options)`. The checks run in the
      order of the code: `behavior`, the expressions, then
      `getExtraConstants`; only with at least one expression are the
      function table built and the expressions compiled. */
  function WithFilterExpression(expression: Value, options: Value, host: Host): (r: Outcome<Filter>)
    ensures NormalizeBehavior(OptionField(options, "behavior")).Threw? ==>
              r == Threw(NormalizeBehavior(OptionField(options, "behavior")).error)
    ensures NormalizeBehavior(OptionField(options, "behavior")).Normal? && ExpressionList(expression).Threw? ==>
              r == Threw(ExpressionList(expression).error)
    ensures NormalizeBehavior(OptionField(options, "behavior")).Normal? && ExpressionList(expression).Normal?
            && ExtraConstantsOption(OptionField(options, "getExtraConstants")).Threw? ==>
              r == Threw(ExtraConstantsOption(OptionField(options, "getExtraConstants")).error)
    ensures r.Normal? && r.value.Disabled? <==> r.Normal? && ExpressionList(expression) == Normal([])
    ensures r.Normal? && r.value.Disabled? ==> r.value.emptyValue == DefaultTrue(OptionField(options, "emptyValue"))
    ensures r.Normal? && r.value.Active? ==>
              && r.value.behavior == NormalizeBehavior(OptionField(options, "behavior")).value
              && |r.value.predicates| == |ExpressionList(expression).value|
              && r.value.fallbackValue == DefaultTrue(OptionField(options, "fallbackValue"))
    ensures var list := ExpressionList(expression);
            NormalizeBehavior(OptionField(options, "behavior")).Normal? && list.Normal?
            && ExtraConstantsOption(OptionField(options, "getExtraConstants")).Normal? ==>
              var compiled := CompileAll(host, list.value, FunctionTableOf(OptionField(options, "extraFunctions")));
              && (r.Normal? <==> list.value == [] || compiled.Normal?)
              && (list.value != [] && compiled.Threw? ==> r == Threw(compiled.error))
    ensures r.Normal? && r.value.Active? ==>
              var list := ExpressionList(expression).value;
              var table := FunctionTableOf(OptionField(options, "extraFunctions"));
              && r.value.predicates == CompileAll(host, list, table).value
              && (forall i :: 0 <= i < |list| ==> r.value.predicates[i] == host.compile(list[i], table).value)
              && r.value.extraConstants == ExtraConstantsOption(OptionField(options, "getExtraConstants")).value
  {
    var emptyValue := DefaultTrue(OptionField(options, "emptyValue"));
    var fallbackValue := DefaultTrue(OptionField(options, "fallbackValue"));
    match NormalizeBehavior(OptionField(options, "behavior"))
    case Threw(e) => Threw(e)
    case Normal(behavior) =>
      match ExpressionList(expression)
      case Threw(e) => Threw(e)
      case Normal(expressions) =>
        match ExtraConstantsOption(OptionField(options, "getExtraConstants"))
        case Threw(e) => Threw(e)
        case Normal(source) =>
          if expressions == [] then Normal(Disabled(emptyValue))
          else
            match CompileAll(host, expressions, FunctionTableOf(OptionField(options, "extraFunctions")))
            case Threw(e) => Threw(e)
            case Normal(predicates) => Normal(Active(behavior, predicates, source, fallbackValue))
  }

  // ---------------------------------------------------------------------
  // Combining the predicates

  /** Whether a predicate's outcome settles the combined answer: a throw
      always does, a falsy result under "and", a truthy one under
      "or". */
  predicate Decides(behavior: Behavior, o: Outcome<Value>) {
    o.Threw? || Truthy(o.value) == (behavior == Or)
  }

  /** `predicates.every(cp => !!cp(constants))` for "and",
      `predicates.some(cp => !!cp(constants))` for "or": the predicates
      run in order until one decides. */
  function Combine(behavior: Behavior, predicates: seq<Predicate>, constants: map<string, Value>): (r: Outcome<bool>)
    ensures r.Threw? ==>
              exists k :: 0 <= k < |predicates| && predicates[k](constants) == Threw(r.error)
                && forall i :: 0 <= i < k ==> !Decides(behavior, predicates[i](constants))
    ensures r == Normal(behavior == Or) ==>
              exists k :: 0 <= k < |predicates| && predicates[k](constants).Normal? && Decides(behavior, predicates[k](constants))
    decreases |predicates|
  {
    if predicates == [] then Normal(behavior == And)
    else
      match predicates[0](constants)
      case Threw(e) => Threw(e)
      case Normal(v) =>
        if Truthy(v) == (behavior == Or) then Normal(behavior == Or)
        else Combine(behavior, predicates[1..], constants)
  }

  /** When every predicate completes, "and" is true exactly when all
      results are truthy and "or" exactly when one is. */
  lemma {:induction false} CombineAllComplete(predicates: seq<Predicate>, constants: map<string, Value>)
    requires forall i :: 0 <= i < |predicates| ==> predicates[i](constants).Normal?
    ensures Combine(And, predicates, constants)
         == Normal(forall i :: 0 <= i < |predicates| ==> Truthy(predicates[i](constants).value))
    ensures Combine(Or, predicates, constants)
         == Normal(exists i :: 0 <= i < |predicates| && Truthy(predicates[i](constants).value))
    decreases |predicates|
  {
    if predicates != [] {
      var rest := predicates[1..];
      assert forall i :: 0 <= i < |rest| ==> rest[i] == predicates[i + 1];
      CombineAllComplete(rest, constants);
      if Truthy(predicates[0](constants).value) {
        assert exists i :: 0 <= i < |predicates| && Truthy(predicates[i](constants).value);
      } else {
        assert !(forall i :: 0 <= i < |predicates| ==> Truthy(predicates[i](constants).value));
      }
    }
  }

  /** The first predicate that decides gives the answer, and the
      predicates after it do not matter: they are never run. */
  lemma {:induction false} CombineStopsAtFirstDecision(behavior: Behavior, predicates: seq<Predicate>, constants: map<string, Value>, k: nat, later: seq<Predicate>)
    requires k < |predicates| && Decides(behavior, predicates[k](constants))
    requires forall i :: 0 <= i < k ==> !Decides(behavior, predicates[i](constants))
    ensures Combine(behavior, predicates[..k + 1] + later, constants)
         == (if predicates[k](constants).Threw? then Threw(predicates[k](constants).error) else Normal(behavior == Or))
    decreases k
  {
    var ps := predicates[..k + 1] + later;
    assert ps[0] == predicates[0];
    if k > 0 {
      var rest := predicates[1..];
      assert !Decides(behavior, predicates[0](constants));
      forall i | 0 <= i < k - 1
        ensures !Decides(behavior, rest[i](constants))
      {
        assert rest[i] == predicates[i + 1];
      }
      CombineStopsAtFirstDecision(behavior, rest, constants, k - 1, later);
      assert ps[1..] == rest[..k] + later;
    }
  }

  /** Without a deciding predicate, "and" gives true and "or" false. */
  lemma {:induction false} CombineWithoutDecision(behavior: Behavior, predicates: seq<Predicate>, constants: map<string, Value>)
    requires forall i :: 0 <= i < |predicates| ==> !Decides(behavior, predicates[i](constants))
    ensures Combine(behavior, predicates, constants) == Normal(behavior == And)
    decreases |predicates|
  {
    if predicates != [] {
      var rest := predicates[1..];
      assert !Decides(behavior, predicates[0](constants));
      forall i | 0 <= i < |rest|
        ensures !Decides(behavior, rest[i](constants))
      {
        assert rest[i] == predicates[i + 1];
      }
      CombineWithoutDecision(behavior, rest, constants);
    }
  }

  // ---------------------------------------------------------------------
  // The constants of one call

  /** What an expression reading the constant `name` sees: undefined
      when there is no such constant. */
  function Constant(constants: map<string, Value>, name: string): Value {
    if name in constants then constants[name] else Undefined
  }

  /** `arg<i>` */
  function ArgKey(i: nat): string {
    "arg" + DecimalText(i)
  }

  /** `message<i>` */
  function MessageKey(i: nat): string {
    "message" + DecimalText(i)
  }

  /** Whether a key has no digit where `arg<i>` and `message<i>` keys
      have their first one; every seeded key is such a key. */
  predicate OutsideArgKeys(k: string) {
    |k| > 3 && !IsDigit(k[3]) && (|k| <= 7 || !IsDigit(k[7]))
  }

  /** The keys of the loop over the arguments are all different from each
      other and from every key outside their shape. */
  lemma ArgKeysDistinct(i: nat, j: nat, k: string)
    ensures ArgKey(i) == ArgKey(j) ==> i == j
    ensures MessageKey(i) == MessageKey(j) ==> i == j
    ensures ArgKey(i) != MessageKey(j)
    ensures OutsideArgKeys(k) ==> ArgKey(i) != k && MessageKey(i) != k
  {
    if ArgKey(i) == ArgKey(j) {
      assert ArgKey(i)[3..] == DecimalText(i);
      assert ArgKey(j)[3..] == DecimalText(j);
      DecimalTextInjective(i, j);
    }
    if MessageKey(i) == MessageKey(j) {
      assert MessageKey(i)[7..] == DecimalText(i);
      assert MessageKey(j)[7..] == DecimalText(j);
      DecimalTextInjective(i, j);
    }
    assert ArgKey(i)[0] == 'a' && MessageKey(j)[0] == 'm';
    assert IsDigit(ArgKey(i)[3]) && IsDigit(MessageKey(i)[7]);
  }

  /** The constants every call starts from. */
  function Seed(host: Host, t: LogType, args: seq<Value>): map<string, Value> {
    var level := host.levelValue;
    map[
      "args" := Arr(args),
      "debug" := Num(level(Debug)),
      "default" := Num(level(Default)),
      "error" := Num(level(Error)),
      "false" := Bool(false),
      "info" := Num(level(Info)),
      "isDebug" := Bool(level(t) == level(Debug)),
      "isDefault" := Bool(level(t) == level(Default)),
      "isError" := Bool(level(t) == level(Error)),
      "isInfo" := Bool(level(t) == level(Info)),
      "isTrace" := Bool(level(t) == level(Trace)),
      "isWarn" := Bool(level(t) == level(Warn)),
      "null" := Null,
      "severity" := Str(LowerName(t)),
      "trace" := Num(level(Trace)),
      "true" := Bool(true),
      "type" := Num(level(t)),
      "undefined" := Undefined,
      "warn" := Num(level(Warn))
    ]
  }

  /** No seeded key has the shape of `arg<i>` or `message<i>`, so the
      loop over the arguments keeps every seeded constant as it is. */
  lemma SeedSurvivesArguments(host: Host, t: LogType, args: seq<Value>)
    requires ArgConstantsFrom(Seed(host, t, args), args, 0).Normal?
    ensures forall k :: k in Seed(host, t, args) ==> OutsideArgKeys(k)
    ensures var seed := Seed(host, t, args);
            forall k :: k in seed ==> k in ArgConstantsFrom(seed, args, 0).value && ArgConstantsFrom(seed, args, 0).value[k] == seed[k]
  {
    var seed := Seed(host, t, args);
    forall k | k in seed
      ensures OutsideArgKeys(k)
      ensures k in ArgConstantsFrom(seed, args, 0).value && ArgConstantsFrom(seed, args, 0).value[k] == seed[k]
    {
      assert OutsideArgKeys(k);
      ArgLoopKeeps(seed, args, 0, k);
    }
  }

  /** The `isX` flags name the call's log type: when the log types have
      distinct values, exactly one of them is true. */
  lemma SeedNamesTheType(host: Host, t: LogType, args: seq<Value>)
    requires forall a: LogType, b: LogType :: host.levelValue(a) == host.levelValue(b) ==> a == b
    ensures var seed := Seed(host, t, args);
            && Constant(seed, "isDebug") == Bool(t == Debug) && Constant(seed, "isDefault") == Bool(t == Default)
            && Constant(seed, "isError") == Bool(t == Error) && Constant(seed, "isInfo") == Bool(t == Info)
            && Constant(seed, "isTrace") == Bool(t == Trace) && Constant(seed, "isWarn") == Bool(t == Warn)
  {
  }

  /** The seeded values besides the flags: the type's lower-cased name
      and value, the arguments, and the literals. */
  lemma SeedValues(host: Host, t: LogType, args: seq<Value>)
    ensures var seed := Seed(host, t, args);
            && Constant(seed, "severity") == Str(LowerName(t)) && Constant(seed, "type") == Num(host.levelValue(t))
            && Constant(seed, "args") == Arr(args)
            && Constant(seed, "true") == Bool(true) && Constant(seed, "false") == Bool(false)
            && Constant(seed, "null") == Null && Constant(seed, "undefined") == Undefined
  {
  }

  /** The constants after `args.forEach` has run from index `i` on: each
      argument under `arg<i>`, its safe rendering under `message<i>`; a
      rendering that throws ends the call. */
  function ArgConstantsFrom(m: map<string, Value>, args: seq<Value>, i: nat): (r: Outcome<map<string, Value>>)
    requires i <= |args|
    ensures r.Normal? ==> m.Keys <= r.value.Keys
    ensures r.Threw? ==>
              exists j :: i <= j < |args| && Internal.ToStringSafe(args[j]) == Threw(r.error)
                && forall l :: i <= l < j ==> Internal.ToStringSafe(args[l]).Normal?
    decreases |args| - i
  {
    if i == |args| then Normal(m)
    else
      match Internal.ToStringSafe(args[i])
      case Threw(e) => Threw(e)
      case Normal(s) => ArgConstantsFrom(m[ArgKey(i) := args[i]][MessageKey(i) := Str(s)], args, i + 1)
  }

  /** After the loop over the arguments every argument and its rendering
      are in place, the loop completes exactly when every argument
      renders, and every other key keeps its value. */
  lemma {:induction false} ArgConstantsContents(m: map<string, Value>, args: seq<Value>, i: nat)
    requires i <= |args|
    ensures ArgConstantsFrom(m, args, i).Normal? <==> forall j :: i <= j < |args| ==> Internal.ToStringSafe(args[j]).Normal?
    ensures ArgConstantsFrom(m, args, i).Normal? ==>
              forall j :: i <= j < |args| ==>
                && ArgKey(j) in ArgConstantsFrom(m, args, i).value
                && ArgConstantsFrom(m, args, i).value[ArgKey(j)] == args[j]
                && MessageKey(j) in ArgConstantsFrom(m, args, i).value
                && ArgConstantsFrom(m, args, i).value[MessageKey(j)] == Str(Internal.ToStringSafe(args[j]).value)
    decreases |args| - i
  {
    ArgLoopCompletes(m, args, i);
    if ArgConstantsFrom(m, args, i).Normal? {
      ArgLoopStores(m, args, i);
      var c := ArgConstantsFrom(m, args, i).value;
      forall j | i <= j < |args|
        ensures ArgKey(j) in c && c[ArgKey(j)] == args[j]
        ensures MessageKey(j) in c && c[MessageKey(j)] == Str(Internal.ToStringSafe(args[j]).value)
      {
        assert ArgStored(c, j, args[j]);
      }
    }
  }

  /** Argument `a` and its rendering are stored under the keys of index
      `j`. */
  predicate ArgStored(c: map<string, Value>, j: nat, a: Value) {
    && ArgKey(j) in c && c[ArgKey(j)] == a
    && MessageKey(j) in c && c[MessageKey(j)].Str? && Internal.ToStringSafe(a) == Normal(c[MessageKey(j)].s)
  }

  lemma {:induction false} ArgLoopCompletes(m: map<string, Value>, args: seq<Value>, i: nat)
    requires i <= |args|
    ensures ArgConstantsFrom(m, args, i).Normal? <==> forall j :: i <= j < |args| ==> Internal.ToStringSafe(args[j]).Normal?
    decreases |args| - i
  {
    if i < |args| {
      match Internal.ToStringSafe(args[i])
      case Threw(e) =>
      case Normal(s) =>
        ArgLoopCompletes(m[ArgKey(i) := args[i]][MessageKey(i) := Str(s)], args, i + 1);
    }
  }

  lemma {:induction false} ArgLoopStores(m: map<string, Value>, args: seq<Value>, i: nat)
    requires i <= |args| && ArgConstantsFrom(m, args, i).Normal?
    ensures forall j :: i <= j < |args| ==> ArgStored(ArgConstantsFrom(m, args, i).value, j, args[j])
    decreases |args| - i
  {
    if i < |args| {
      var s := Internal.ToStringSafe(args[i]).value;
      var m' := m[ArgKey(i) := args[i]][MessageKey(i) := Str(s)];
      assert ArgConstantsFrom(m, args, i) == ArgConstantsFrom(m', args, i + 1);
      ArgLoopStores(m', args, i + 1);
      ArgKeysDistinct(i, i, "");
      ArgsKeepEarlierKeys(m', args, i + 1, i);
    }
  }

  /** The keys of index `i` are not touched by the loop from a later
      index on. */
  lemma {:induction false} ArgsKeepEarlierKeys(m: map<string, Value>, args: seq<Value>, from: nat, i: nat)
    requires i < from <= |args| && ArgConstantsFrom(m, args, from).Normal?
    requires ArgKey(i) in m && MessageKey(i) in m
    ensures ArgKey(i) in ArgConstantsFrom(m, args, from).value
    ensures ArgConstantsFrom(m, args, from).value[ArgKey(i)] == m[ArgKey(i)]
    ensures MessageKey(i) in ArgConstantsFrom(m, args, from).value
    ensures ArgConstantsFrom(m, args, from).value[MessageKey(i)] == m[MessageKey(i)]
    decreases |args| - from
  {
    if from < |args| {
      var s := Internal.ToStringSafe(args[from]).value;
      var m' := m[ArgKey(from) := args[from]][MessageKey(from) := Str(s)];
      ArgKeysDistinct(i, from, "");
      ArgKeysDistinct(from, i, "");
      ArgsKeepEarlierKeys(m', args, from + 1, i);
    }
  }

  /** `getExtraConstants(context)`: the default gives null. */
  function SupplyExtraConstants(host: Host, source: ExtraConstantsSource, context: Context): Outcome<Value> {
    match source
    case NullSupplier => Normal(Null)
    case Supplier(f) => host.run(f, context)
  }

  /** The value stored for one extra constant: a function is called with
      the shared context, which by then holds the constants as they are
      at that moment; anything else is stored as it is. */
  function ExtraConstantValue(host: Host, value: Value, context: Context): Outcome<Value> {
    if value.Fn? then host.run(value, context) else Normal(value)
  }

  /** The constants after the loop over the extra constants has run from
      entry `j` on. */
  function ExtraConstantsFrom(host: Host, m: map<string, Value>, entries: seq<(string, Value)>, j: nat, args: seq<Value>, t: LogType): (r: Outcome<map<string, Value>>)
    requires j <= |entries|
    ensures r.Normal? ==> m.Keys <= r.value.Keys
    ensures r.Normal? ==> forall l :: j <= l < |entries| ==> entries[l].0 in r.value
    decreases |entries| - j
  {
    if j == |entries| then Normal(m)
    else
      match ExtraConstantValue(host, entries[j].1, Context(args, m, t))
      case Threw(e) => Threw(e)
      case Normal(v) => ExtraConstantsFrom(host, m[entries[j].0 := v], entries, j + 1, args, t)
  }

  /** Extra constants are applied in entry order and overwrite whatever
      is there: the last entry with a name decides that name (a function
      entry through what calling it gives), and a name no entry mentions
      keeps its value. */
  lemma {:induction false} ExtraConstantsContents(host: Host, m: map<string, Value>, entries: seq<(string, Value)>, j: nat, args: seq<Value>, t: LogType, name: string, k: nat, v: Value)
    requires j <= |entries|
    requires ExtraConstantsFrom(host, m, entries, j, args, t).Normal?
    ensures NotNamedFrom(entries, j, name) && name in m ==>
              name in ExtraConstantsFrom(host, m, entries, j, args, t).value
              && ExtraConstantsFrom(host, m, entries, j, args, t).value[name] == m[name]
    ensures j <= k < |entries| && entries[k].0 == name && NotNamedFrom(entries, k + 1, name)
            && (forall c: Context :: ExtraConstantValue(host, entries[k].1, c) == Normal(v)) ==>
              name in ExtraConstantsFrom(host, m, entries, j, args, t).value
              && ExtraConstantsFrom(host, m, entries, j, args, t).value[name] == v
    decreases |entries| - j
  {
    if j < |entries| {
      var v' := ExtraConstantValue(host, entries[j].1, Context(args, m, t)).value;
      ExtraConstantsContents(host, m[entries[j].0 := v'], entries, j + 1, args, t, name, k, v);
      if k == j && entries[k].0 == name && NotNamedFrom(entries, k + 1, name) {
        ExtraConstantsContents(host, m[entries[j].0 := v'], entries, j + 1, args, t, name, |entries|, v);
      }
    }
  }

  /** The loop over the extra constants completes when no function entry
      throws. */
  lemma {:induction false} ExtraConstantsComplete(host: Host, m: map<string, Value>, entries: seq<(string, Value)>, j: nat, args: seq<Value>, t: LogType)
    requires j <= |entries|
    requires forall l :: j <= l < |entries| ==> forall c: Context :: ExtraConstantValue(host, entries[l].1, c).Normal?
    ensures ExtraConstantsFrom(host, m, entries, j, args, t).Normal?
    decreases |entries| - j
  {
    if j < |entries| {
      var v := ExtraConstantValue(host, entries[j].1, Context(args, m, t)).value;
      ExtraConstantsComplete(host, m[entries[j].0 := v], entries, j + 1, args, t);
    }
  }

  /** Running the loop from entry `j` is running it over the entries
      before `k` first, then going on from `k` with the map they left:
      the map entry `k` is called with is the live one. */
  lemma {:induction false} ExtraConstantsSplit(host: Host, m: map<string, Value>, entries: seq<(string, Value)>, j: nat, k: nat, args: seq<Value>, t: LogType)
    requires j <= k <= |entries|
    ensures ExtraConstantsFrom(host, m, entries, j, args, t)
         == match ExtraConstantsFrom(host, m, entries[..k], j, args, t)
            case Threw(e) => Threw(e)
            case Normal(before) => ExtraConstantsFrom(host, before, entries, k, args, t)
    decreases k - j
  {
    if j < k {
      assert entries[..k][j] == entries[j];
      var v := ExtraConstantValue(host, entries[j].1, Context(args, m, t));
      if v.Normal? {
        ExtraConstantsSplit(host, m[entries[j].0 := v.value], entries, j + 1, k, args, t);
      }
    }
  }

  /** The last entry with a name decides it: its value is what the entry
      gives when called with the constants as the entries before it left
      them, so a function entry sees every earlier entry's result. */
  lemma ExtraConstantsLastEntry(host: Host, m: map<string, Value>, entries: seq<(string, Value)>, j: nat, k: nat, args: seq<Value>, t: LogType)
    requires j <= k < |entries| && NotNamedFrom(entries, k + 1, entries[k].0)
    requires ExtraConstantsFrom(host, m, entries, j, args, t).Normal?
    ensures ExtraConstantsFrom(host, m, entries[..k], j, args, t).Normal?
    ensures var before := ExtraConstantsFrom(host, m, entries[..k], j, args, t).value;
            var v := ExtraConstantValue(host, entries[k].1, Context(args, before, t));
            var c := ExtraConstantsFrom(host, m, entries, j, args, t).value;
            v.Normal? && entries[k].0 in c && c[entries[k].0] == v.value
  {
    ExtraConstantsSplit(host, m, entries, j, k, args, t);
    var before := ExtraConstantsFrom(host, m, entries[..k], j, args, t).value;
    var v := ExtraConstantValue(host, entries[k].1, Context(args, before, t)).value;
    ExtraConstantsContents(host, before[entries[k].0 := v], entries, k + 1, args, t, entries[k].0, |entries|, v);
  }

  /** Entry `k` throws `e` when called with the constants as the entries
      from `j` up to it left them. */
  predicate EntryThrows(host: Host, m: map<string, Value>, entries: seq<(string, Value)>, j: nat, k: nat, args: seq<Value>, t: LogType, e: Value)
    requires j <= k < |entries|
  {
    var before := ExtraConstantsFrom(host, m, entries[..k], j, args, t);
    before.Normal? && ExtraConstantValue(host, entries[k].1, Context(args, before.value, t)) == Threw(e)
  }

  /** An entry that throws in its live context ends the loop with its
      error. */
  lemma ExtraConstantsFirstThrow(host: Host, m: map<string, Value>, entries: seq<(string, Value)>, j: nat, k: nat, args: seq<Value>, t: LogType, e: Value)
    requires j <= k < |entries| && EntryThrows(host, m, entries, j, k, args, t, e)
    ensures ExtraConstantsFrom(host, m, entries, j, args, t) == Threw(e)
  {
    ExtraConstantsSplit(host, m, entries, j, k, args, t);
  }

  /** The loop throws only through an entry that throws in its live
      context. */
  lemma {:induction false} ExtraConstantsThrowHasEntry(host: Host, m: map<string, Value>, entries: seq<(string, Value)>, j: nat, args: seq<Value>, t: LogType)
    requires j <= |entries| && ExtraConstantsFrom(host, m, entries, j, args, t).Threw?
    ensures exists k :: j <= k < |entries| && EntryThrows(host, m, entries, j, k, args, t, ExtraConstantsFrom(host, m, entries, j, args, t).error)
    decreases |entries| - j
  {
    var e := ExtraConstantsFrom(host, m, entries, j, args, t).error;
    var o := ExtraConstantValue(host, entries[j].1, Context(args, m, t));
    assert ExtraConstantsFrom(host, m, entries[..j], j, args, t) == Normal(m);
    if o.Threw? {
      assert EntryThrows(host, m, entries, j, j, args, t, e);
    } else {
      var m' := m[entries[j].0 := o.value];
      ExtraConstantsThrowHasEntry(host, m', entries, j + 1, args, t);
      var k :| j + 1 <= k < |entries| && EntryThrows(host, m', entries, j + 1, k, args, t, e);
      assert entries[..k][j] == entries[j];
      assert ExtraConstantsFrom(host, m, entries[..k], j, args, t) == ExtraConstantsFrom(host, m', entries[..k], j + 1, args, t);
      assert EntryThrows(host, m, entries, j, k, args, t, e);
    }
  }

  /** A function entry reading a constant that an earlier entry stored
      sees that entry's value, not the one the map held before the
      loop. */
  lemma ExtraConstantsSeeEarlierEntries(host: Host, m: map<string, Value>, t: LogType, reader: Value)
    requires reader.Fn? && forall c: Context :: host.run(reader, c) == Normal(Constant(c.constants, "foo"))
    requires "foo" in m && m["foo"] == Str("seeded")
    ensures ExtraConstantsFrom(host, m, [("foo", Str("bar")), ("copy", reader)], 0, [], t).Normal?
    ensures Constant(ExtraConstantsFrom(host, m, [("foo", Str("bar")), ("copy", reader)], 0, [], t).value, "copy") == Str("bar")
  {
    var entries := [("foo", Str("bar")), ("copy", reader)];
    ExtraConstantsComplete(host, m, entries, 0, [], t);
    ExtraConstantsLastEntry(host, m, entries, 0, 1, [], t);
    assert entries[..1] == [("foo", Str("bar"))];
  }

  /** All constants of one call: the seed, the arguments, then the extra
      constants when `getExtraConstants` returns something truthy. */
  function BuildConstants(host: Host, source: ExtraConstantsSource, t: LogType, args: seq<Value>): Outcome<map<string, Value>> {
    match ArgConstantsFrom(Seed(host, t, args), args, 0)
    case Threw(e) => Threw(e)
    case Normal(m) =>
      match SupplyExtraConstants(host, source, Context(args, m, t))
      case Threw(e) => Threw(e)
      case Normal(extra) =>
        if Truthy(extra) then ExtraConstantsFrom(host, m, OwnEntries(extra), 0, args, t)
        else Normal(m)
  }

  /** A call whose arguments do not all render throws, outside the try,
      the error of the first argument whose rendering throws. */
  lemma ArgumentThrowEndsCall(host: Host, source: ExtraConstantsSource, t: LogType, args: seq<Value>, k: nat, e: Value)
    requires k < |args| && Internal.ToStringSafe(args[k]) == Threw(e)
    requires forall i :: 0 <= i < k ==> Internal.ToStringSafe(args[i]).Normal?
    ensures BuildConstants(host, source, t, args) == Threw(e)
  {
    var seed := Seed(host, t, args);
    ArgLoopCompletes(seed, args, 0);
    var built := ArgConstantsFrom(seed, args, 0);
    var j :| 0 <= j < |args| && Internal.ToStringSafe(args[j]) == Threw(built.error)
              && forall l :: 0 <= l < j ==> Internal.ToStringSafe(args[l]).Normal?;
    assert j == k;
  }

  /** Once the arguments render, a throw from `getExtraConstants`, called
      with the constants built so far, or from the first extra constant
      that throws when called with the live map, is what the call throws,
      outside the try. */
  lemma ExtraConstantsThrowEndsCall(host: Host, source: ExtraConstantsSource, t: LogType, args: seq<Value>, k: nat, e: Value)
    requires forall i :: 0 <= i < |args| ==> Internal.ToStringSafe(args[i]).Normal?
    ensures ArgConstantsFrom(Seed(host, t, args), args, 0).Normal?
    ensures var m := ArgConstantsFrom(Seed(host, t, args), args, 0).value;
            SupplyExtraConstants(host, source, Context(args, m, t)) == Threw(e) ==>
              BuildConstants(host, source, t, args) == Threw(e)
    ensures var m := ArgConstantsFrom(Seed(host, t, args), args, 0).value;
            var extra := SupplyExtraConstants(host, source, Context(args, m, t));
            extra.Normal? && Truthy(extra.value) && k < |OwnEntries(extra.value)|
            && EntryThrows(host, m, OwnEntries(extra.value), 0, k, args, t, e) ==>
              BuildConstants(host, source, t, args) == Threw(e)
  {
    var seed := Seed(host, t, args);
    ArgLoopCompletes(seed, args, 0);
    var m := ArgConstantsFrom(seed, args, 0).value;
    var extra := SupplyExtraConstants(host, source, Context(args, m, t));
    if extra.Normal? && Truthy(extra.value) && k < |OwnEntries(extra.value)| {
      if EntryThrows(host, m, OwnEntries(extra.value), 0, k, args, t, e) {
        ExtraConstantsFirstThrow(host, m, OwnEntries(extra.value), 0, k, args, t, e);
      }
    }
  }

  /** A throw while building the constants is what the call of an active
      filter throws: it is not turned into `fallbackValue`. */
  lemma ConstantsThrowReachesLogger(host: Host, filter: Filter, t: LogType, args: seq<Value>)
    requires filter.Active?
    ensures BuildConstants(host, filter.extraConstants, t, args).Threw? ==>
              FilterResult(host, filter, t, args) == Threw(BuildConstants(host, filter.extraConstants, t, args).error)
  {
  }

  /** What one call of the filter gives: `emptyValue` when there are no
      expressions; otherwise the combined vote, or `fallbackValue` when a
      predicate throws. A throw while building the constants is not
      caught. */
  function FilterResult(host: Host, filter: Filter, t: LogType, args: seq<Value>): Outcome<bool> {
    match filter
    case Disabled(emptyValue) => Normal(emptyValue)
    case Active(behavior, predicates, source, fallbackValue) =>
      match BuildConstants(host, source, t, args)
      case Threw(e) => Threw(e)
      case Normal(constants) => Normal(Vote(behavior, predicates, constants, fallbackValue))
  }

  /** The try around the vote: a throw from a predicate gives
      `fallbackValue`. */
  function Vote(behavior: Behavior, predicates: seq<Predicate>, constants: map<string, Value>, fallbackValue: bool): bool {
    match Combine(behavior, predicates, constants)
    case Threw(_) => fallbackValue
    case Normal(b) => b
  }

  /** When every predicate completes, "and" votes whether all results are
      truthy and "or" whether one is; when the first predicate to decide
      throws instead, the vote is `fallbackValue`. */
  lemma VoteAnswer(behavior: Behavior, ps: seq<Predicate>, c: map<string, Value>, fallbackValue: bool, k: nat)
    ensures (forall i :: 0 <= i < |ps| ==> ps[i](c).Normal?) ==>
              Vote(behavior, ps, c, fallbackValue)
              == if behavior == And then forall i :: 0 <= i < |ps| ==> Truthy(ps[i](c).value)
                 else exists i :: 0 <= i < |ps| && Truthy(ps[i](c).value)
    ensures k < |ps| && ps[k](c).Threw? && (forall i :: 0 <= i < k ==> !Decides(behavior, ps[i](c))) ==>
              Vote(behavior, ps, c, fallbackValue) == fallbackValue
  {
    if forall i :: 0 <= i < |ps| ==> ps[i](c).Normal? {
      CombineAllComplete(ps, c);
    }
    if k < |ps| && ps[k](c).Threw? && (forall i :: 0 <= i < k ==> !Decides(behavior, ps[i](c))) {
      CombineStopsAtFirstDecision(behavior, ps, c, k, ps[k + 1..]);
      assert ps[..k + 1] + ps[k + 1..] == ps;
    }
  }

  /** The loop over the arguments: stores each argument and its safe
      rendering. */
  method AddArgConstants(start: map<string, Value>, args: seq<Value>) returns (r: Outcome<map<string, Value>>)
    ensures r == ArgConstantsFrom(start, args, 0)
  {
    var constants := start;
    var i := 0;
    while i < |args|
      invariant i <= |args|
      invariant ArgConstantsFrom(constants, args, i) == ArgConstantsFrom(start, args, 0)
      decreases |args| - i
    {
      var a := args[i];
      constants := constants[ArgKey(i) := a];
      var message := Internal.ToStringSafe(a);
      if message.Threw? {
        return Threw(message.error);
      }
      constants := constants[MessageKey(i) := Str(message.value)];
      i := i + 1;
    }
    return Normal(constants);
  }

  /** The loop over the extra constants: stores each value, calling it
      first when it is a function. */
  method AddExtraConstants(host: Host, start: map<string, Value>, entries: seq<(string, Value)>, args: seq<Value>, t: LogType)
    returns (r: Outcome<map<string, Value>>)
    ensures r == ExtraConstantsFrom(host, start, entries, 0, args, t)
  {
    var constants := start;
    var j := 0;
    while j < |entries|
      invariant j <= |entries|
      invariant ExtraConstantsFrom(host, constants, entries, j, args, t) == ExtraConstantsFrom(host, start, entries, 0, args, t)
      decreases |entries| - j
    {
      var (name, value) := entries[j];
      var v := ExtraConstantValue(host, value, Context(args, constants, t));
      if v.Threw? {
        return Threw(v.error);
      }
      constants := constants[name := v.value];
      j := j + 1;
    }
    return Normal(constants);
  }

  /** The filter `withFilterExpression` returns, called with `(type,
      args)`: fills a fresh map of constants step by step and then lets
      the predicates vote; only the vote is inside the try. */
  method Evaluate(host: Host, filter: Filter, t: LogType, args: seq<Value>) returns (r: Outcome<bool>)
    ensures r == FilterResult(host, filter, t, args)
  {
    if filter.Disabled? {
      return Normal(filter.emptyValue);
    }
    var built := AddArgConstants(Seed(host, t, args), args);
    if built.Threw? {
      return Threw(built.error);
    }
    var constants := built.value;
    var extra := SupplyExtraConstants(host, filter.extraConstants, Context(args, constants, t));
    if extra.Threw? {
      return Threw(extra.error);
    }
    if Truthy(extra.value) {
      built := AddExtraConstants(host, constants, OwnEntries(extra.value), args, t);
      if built.Threw? {
        return Threw(built.error);
      }
      constants := built.value;
    }
    var vote := Combine(filter.behavior, filter.predicates, constants);
    if vote.Threw? {
      r := Normal(filter.fallbackValue);
    } else {
      r := vote;
    }
  }

  // ---------------------------------------------------------------------
  // What a call of the filter sees and answers

  /** Without extra constants, a call completes its constants exactly
      when every argument renders, and then holds each argument under
      `arg<i>` and its rendering under `message<i>`. */
  lemma ArgumentConstantsOfACall(host: Host, t: LogType, args: seq<Value>)
    ensures BuildConstants(host, NullSupplier, t, args).Normal? <==>
              forall j :: 0 <= j < |args| ==> Internal.ToStringSafe(args[j]).Normal?
    ensures BuildConstants(host, NullSupplier, t, args).Normal? ==>
              var c := BuildConstants(host, NullSupplier, t, args).value;
              forall j :: 0 <= j < |args| ==>
                && Constant(c, ArgKey(j)) == args[j]
                && Constant(c, MessageKey(j)) == Str(Internal.ToStringSafe(args[j]).value)
  {
    ArgConstantsContents(Seed(host, t, args), args, 0);
  }

  /** Without extra constants, the `isX` flag of the call's type alone
      is true. */
  lemma TypeFlagsOfACall(host: Host, t: LogType, args: seq<Value>)
    requires forall a: LogType, b: LogType :: host.levelValue(a) == host.levelValue(b) ==> a == b
    requires BuildConstants(host, NullSupplier, t, args).Normal?
    ensures var c := BuildConstants(host, NullSupplier, t, args).value;
            && Constant(c, "isDebug") == Bool(t == Debug) && Constant(c, "isDefault") == Bool(t == Default)
            && Constant(c, "isError") == Bool(t == Error) && Constant(c, "isInfo") == Bool(t == Info)
            && Constant(c, "isTrace") == Bool(t == Trace) && Constant(c, "isWarn") == Bool(t == Warn)
  {
    var seed := Seed(host, t, args);
    SeedNamesTheType(host, t, args);
    assert OutsideArgKeys("isDebug") && OutsideArgKeys("isDefault") && OutsideArgKeys("isError");
    assert OutsideArgKeys("isInfo") && OutsideArgKeys("isTrace") && OutsideArgKeys("isWarn");
    ArgLoopKeeps(seed, args, 0, "isDebug");
    ArgLoopKeeps(seed, args, 0, "isDefault");
    ArgLoopKeeps(seed, args, 0, "isError");
    ArgLoopKeeps(seed, args, 0, "isInfo");
    ArgLoopKeeps(seed, args, 0, "isTrace");
    ArgLoopKeeps(seed, args, 0, "isWarn");
  }

  /** Without extra constants, `severity`, `type`, `args` and the
      literals reach the expressions as seeded. */
  lemma SeededValuesOfACall(host: Host, t: LogType, args: seq<Value>)
    requires BuildConstants(host, NullSupplier, t, args).Normal?
    ensures var c := BuildConstants(host, NullSupplier, t, args).value;
            && Constant(c, "severity") == Str(LowerName(t)) && Constant(c, "type") == Num(host.levelValue(t))
            && Constant(c, "args") == Arr(args)
            && Constant(c, "true") == Bool(true) && Constant(c, "false") == Bool(false)
            && Constant(c, "null") == Null && Constant(c, "undefined") == Undefined
  {
    var seed := Seed(host, t, args);
    SeedValues(host, t, args);
    assert OutsideArgKeys("severity") && OutsideArgKeys("type") && OutsideArgKeys("args");
    assert OutsideArgKeys("true") && OutsideArgKeys("false") && OutsideArgKeys("null") && OutsideArgKeys("undefined");
    ArgLoopKeeps(seed, args, 0, "severity");
    ArgLoopKeeps(seed, args, 0, "type");
    ArgLoopKeeps(seed, args, 0, "args");
    ArgLoopKeeps(seed, args, 0, "true");
    ArgLoopKeeps(seed, args, 0, "false");
    ArgLoopKeeps(seed, args, 0, "null");
    ArgLoopKeeps(seed, args, 0, "undefined");
  }

  /** A key outside the shape of `arg<i>` and `message<i>` keeps its
      value, or its absence, through the loop over the arguments. */
  lemma {:induction false} ArgLoopKeeps(m: map<string, Value>, args: seq<Value>, i: nat, k: string)
    requires i <= |args| && ArgConstantsFrom(m, args, i).Normal? && OutsideArgKeys(k)
    ensures Constant(ArgConstantsFrom(m, args, i).value, k) == Constant(m, k)
    decreases |args| - i
  {
    if i < |args| {
      var s := Internal.ToStringSafe(args[i]).value;
      ArgKeysDistinct(i, i, k);
      ArgLoopKeeps(m[ArgKey(i) := args[i]][MessageKey(i) := Str(s)], args, i + 1, k);
    }
  }

  /** A call of an active filter throws exactly when building its
      constants throws. Otherwise, when every predicate completes, "and"
      answers whether all results are truthy and "or" whether one is;
      when the first predicate to decide throws instead, the answer is
      `fallbackValue`. */
  lemma ActiveFilterAnswer(host: Host, filter: Filter, t: LogType, args: seq<Value>, k: nat)
    requires filter.Active?
    ensures FilterResult(host, filter, t, args).Threw? <==> BuildConstants(host, filter.extraConstants, t, args).Threw?
    ensures BuildConstants(host, filter.extraConstants, t, args).Normal? ==>
              var c := BuildConstants(host, filter.extraConstants, t, args).value;
              var ps := filter.predicates;
              && ((forall i :: 0 <= i < |ps| ==> ps[i](c).Normal?) ==>
                    FilterResult(host, filter, t, args) == Normal(
                      if filter.behavior == And then forall i :: 0 <= i < |ps| ==> Truthy(ps[i](c).value)
                      else exists i :: 0 <= i < |ps| && Truthy(ps[i](c).value)))
              && (k < |ps| && ps[k](c).Threw? && (forall i :: 0 <= i < k ==> !Decides(filter.behavior, ps[i](c))) ==>
                    FilterResult(host, filter, t, args) == Normal(filter.fallbackValue))
  {
    var built := BuildConstants(host, filter.extraConstants, t, args);
    if built.Normal? {
      VoteAnswer(filter.behavior, filter.predicates, built.value, filter.fallbackValue, k);
    }
  }

  /** With no expressions, the filter answers `emptyValue` (true unless
      set otherwise) on every call. */
  lemma NoExpressionsMeansEmptyValue(expression: Value, options: Value, host: Host, t: LogType, args: seq<Value>)
    requires WithFilterExpression(expression, options, host).Normal?
    requires ExpressionList(expression) == Normal([])
    ensures FilterResult(host, WithFilterExpression(expression, options, host).value, t, args)
         == Normal(DefaultTrue(OptionField(options, "emptyValue")))
  {
  }

  /** The function table: a name no `extraFunctions` entry mentions is
      the built-in of that name, if there is one; a name an entry
      mentions is the value of its last such entry. */
  lemma FunctionTableContents(extraFunctions: Value, name: string, k: nat)
    ensures var entries := if Truthy(extraFunctions) then OwnEntries(extraFunctions) else [];
            NotNamedFrom(entries, 0, name) ==>
              (name in FunctionTableOf(extraFunctions) <==> name in Builtins.Names)
              && (name in Builtins.Names ==> FunctionTableOf(extraFunctions)[name] == Builtin(name))
    ensures var entries := if Truthy(extraFunctions) then OwnEntries(extraFunctions) else [];
            k < |entries| && entries[k].0 == name && NotNamedFrom(entries, k + 1, name) ==>
              name in FunctionTableOf(extraFunctions) && FunctionTableOf(extraFunctions)[name] == Supplied(entries[k].1)
  {
    var entries := if Truthy(extraFunctions) then OwnEntries(extraFunctions) else [];
    OverrideEntries(BuiltinTable(), entries, name, k);
  }

  /** A supplier of extra constants that gives `foo: 'bar'`, a function
      `error` that gives 'baz', `warn: undefined` and `info: null`:
      those four constants are what the expression then sees. */
  lemma ExtraConstantsScenario(host: Host, t: LogType, supplier: Value, errorFn: Value, toStr: ToStringSlot, json: string)
    requires supplier.Fn? && errorFn.Fn?
    requires forall c: Context :: host.run(errorFn, c) == Normal(Str("baz"))
    requires forall c: Context :: host.run(supplier, c)
               == Normal(Obj([("foo", Str("bar")), ("error", errorFn), ("warn", Undefined), ("info", Null)], toStr, json))
    ensures BuildConstants(host, Supplier(supplier), t, []).Normal?
    ensures var c := BuildConstants(host, Supplier(supplier), t, []).value;
            Constant(c, "foo") == Str("bar") && Constant(c, "error") == Str("baz")
            && Constant(c, "warn") == Undefined && Constant(c, "info") == Null
  {
    var seed := Seed(host, t, []);
    var entries := [("foo", Str("bar")), ("error", errorFn), ("warn", Undefined), ("info", Null)];
    assert BuildConstants(host, Supplier(supplier), t, []) == ExtraConstantsFrom(host, seed, entries, 0, [], t);
    ScenarioEntries(host, seed, entries, t, errorFn);
  }

  lemma ScenarioEntries(host: Host, m: map<string, Value>, entries: seq<(string, Value)>, t: LogType, errorFn: Value)
    requires errorFn.Fn? && forall c: Context :: host.run(errorFn, c) == Normal(Str("baz"))
    requires entries == [("foo", Str("bar")), ("error", errorFn), ("warn", Undefined), ("info", Null)]
    ensures ExtraConstantsFrom(host, m, entries, 0, [], t).Normal?
    ensures var c := ExtraConstantsFrom(host, m, entries, 0, [], t).value;
            Constant(c, "foo") == Str("bar") && Constant(c, "error") == Str("baz")
            && Constant(c, "warn") == Undefined && Constant(c, "info") == Null
  {
    ExtraConstantsComplete(host, m, entries, 0, [], t);
    ExtraConstantsContents(host, m, entries, 0, [], t, "foo", 0, Str("bar"));
    ExtraConstantsContents(host, m, entries, 0, [], t, "error", 1, Str("baz"));
    ExtraConstantsContents(host, m, entries, 0, [], t, "warn", 2, Undefined);
    ExtraConstantsContents(host, m, entries, 0, [], t, "info", 3, Null);
  }
}
