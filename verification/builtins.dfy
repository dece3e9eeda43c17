/**
 The builtins whose bodies are part of this model: `less_than_int`,
 `greater_than_int`, and `Literal`.

 A builtin receives its name, the run's State and its unevaluated children;
 as in the argument helpers, `argv[i]` is the outcome evaluating child `i`
 as text would have. A call returns the State after the builtin's own
 writes, the Value (None for the null failure result), and the children it
 evaluated, in order.
 */
module Builtins {
  import opened Wrappers
  import opened EdifyState
  import opened ArgHelpers

  const Int64Min: int := -0x8000_0000_0000_0000
  const Int64Max: int := 0x7fff_ffff_ffff_ffff

  /** `int64_t`. */
  type Int64 = x: int | Int64Min <= x <= Int64Max

  /**
   `android::base::ParseInt` into an `int64_t`: the parsed number, or None
   when the text is not an integer that fits. Its exact syntax rules belong to
   the library, so every builtin takes the parser as a parameter.
   */
  type IntParser = string -> Option<Int64>

  datatype Call = Call(state: State, value: Option<Value>, evaluated: seq<nat>)

  datatype Comparison = Less | Greater

  function Holds(op: Comparison, l: Int64, r: Int64): bool {
    match op
    case Less => l < r
    case Greater => l > r
  }

  /**
   The failure paths shared by both integer comparisons: a wrong argument
   count is reported before any child is evaluated; a failing child makes
   the builtin fail without a message of its own; then the left text is
   parsed before the right one, and the first that does not parse is named
   in the message. The builtin's own messages replace the error text, and
   it never touches the cause code.
   */
  ghost predicate ComparisonFailures(name: string, state: State, argv: seq<Option<string>>, parse: IntParser, r: Call)
  {
    && r.state == state.(errmsg := r.state.errmsg)
    && (|argv| != 2 ==>
          r.value == None && r.evaluated == [] && r.state.errmsg == name + " expects 2 arguments")
    && (|argv| == 2 ==> r.evaluated == if argv[0].None? then [0] else [0, 1])
    && (|argv| == 2 && (argv[0].None? || argv[1].None?) ==> r.value == None && r.state == state)
    && (|argv| == 2 && argv[0].Some? && argv[1].Some? ==>
          var left, right := argv[0].value, argv[1].value;
          && (parse(left).None? ==>
                r.value == None && r.state.errmsg == "failed to parse int in " + left)
          && (parse(left).Some? && parse(right).None? ==>
                r.value == None && r.state.errmsg == "failed to parse int in " + right)
          && (parse(left).Some? && parse(right).Some? ==> r.value.Some? && r.state == state))
  }

  /** The body shared by `LessThanIntFn` and `GreaterThanIntFn`. */
  function CompareInts(name: string, op: Comparison, state: State, argv: seq<Option<string>>, parse: IntParser): (r: Call)
    ensures ComparisonFailures(name, state, argv, parse, r)
    ensures r.value.Some? ==>
              && |argv| == 2 && argv[0].Some? && argv[1].Some?
              && parse(argv[0].value).Some? && parse(argv[1].value).Some?
              && r.value.value == BoolValue(Holds(op, parse(argv[0].value).value, parse(argv[1].value).value))
  {
    if |argv| != 2 then Call(state.(errmsg := name + " expects 2 arguments"), None, [])
    else
      var read := ReadAllArgs(argv, Some([]));
      if !read.ok then Call(state, None, read.evaluated)
      else
        var args := read.out.value;
        match parse(args[0])
        case None => Call(state.(errmsg := "failed to parse int in " + args[0]), None, read.evaluated)
        case Some(l) =>
          match parse(args[1])
          case None => Call(state.(errmsg := "failed to parse int in " + args[1]), None, read.evaluated)
          case Some(r) => Call(state, Some(BoolValue(Holds(op, l, r))), read.evaluated)
  }

  /**
   `less_than_int`: on two children that evaluate and parse, exactly "t"
   when the left number is smaller and "" otherwise; the failures are those
   of `ComparisonFailures`.
   */
  function LessThanInt(state: State, argv: seq<Option<string>>, parse: IntParser): (r: Call)
    ensures ComparisonFailures("less_than_int", state, argv, parse, r)
    ensures r.value.Some? <==>
              |argv| == 2 && argv[0].Some? && argv[1].Some?
              && parse(argv[0].value).Some? && parse(argv[1].value).Some?
    ensures r.value.Some? ==>
              && r.value.value.kind == StringType
              && (r.value.value.data == "t" <==> parse(argv[0].value).value < parse(argv[1].value).value)
              && (r.value.value.data == "" <==> parse(argv[0].value).value >= parse(argv[1].value).value)
  {
    CompareInts("less_than_int", Less, state, argv, parse)
  }

  /**
   `greater_than_int`: on two children that evaluate and parse, exactly "t"
   when the left number is larger and "" otherwise; the failures are those
   of `ComparisonFailures`.
   */
  function GreaterThanInt(state: State, argv: seq<Option<string>>, parse: IntParser): (r: Call)
    ensures ComparisonFailures("greater_than_int", state, argv, parse, r)
    ensures r.value.Some? <==>
              |argv| == 2 && argv[0].Some? && argv[1].Some?
              && parse(argv[0].value).Some? && parse(argv[1].value).Some?
    ensures r.value.Some? ==>
              && r.value.value.kind == StringType
              && (r.value.value.data == "t" <==> parse(argv[0].value).value > parse(argv[1].value).value)
              && (r.value.value.data == "" <==> parse(argv[0].value).value <= parse(argv[1].value).value)
  {
    CompareInts("greater_than_int", Greater, state, argv, parse)
  }

  /** `Literal`: its own name as text, whatever the children, evaluating none and leaving the State alone. */
  function Literal(name: string, state: State, argv: seq<Option<string>>): (r: Call)
    ensures r.state == state && r.evaluated == []
    ensures r.value.Some? && r.value.value.kind == StringType && r.value.value.data == name
  {
    Call(state, Some(StringValue(name)), [])
  }

  /** `less_than_int(a, b)` and `greater_than_int(b, a)` give the same answer. */
  lemma ComparisonsMirror(state: State, a: string, b: string, parse: IntParser)
    requires parse(a).Some? && parse(b).Some?
    ensures LessThanInt(state, [Some(a), Some(b)], parse) == GreaterThanInt(state, [Some(b), Some(a)], parse)
  {
    var less := LessThanInt(state, [Some(a), Some(b)], parse);
    var greater := GreaterThanInt(state, [Some(b), Some(a)], parse);
    assert less.value.value == BoolValue(parse(a).value < parse(b).value);
    assert greater.value.value == BoolValue(parse(a).value < parse(b).value);
  }

  /**
   On the same two numbers at most one comparison is truthy, and both are
   falsy exactly when the numbers are equal.
   */
  lemma ComparisonsTrichotomy(state: State, a: string, b: string, parse: IntParser)
    requires parse(a).Some? && parse(b).Some?
    ensures var less := LessThanInt(state, [Some(a), Some(b)], parse).value.value;
            var greater := GreaterThanInt(state, [Some(a), Some(b)], parse).value.value;
            && !(IsTruthy(less) && IsTruthy(greater))
            && (!IsTruthy(less) && !IsTruthy(greater) <==> parse(a).value == parse(b).value)
  {
  }

  /**
   With a parser that reads "3" as 3 and "10" as 10, `less_than_int("3", "10")`
   is "t" and `greater_than_int("3", "10")` is ""; a left text "abc" that
   does not parse is named in the message whatever the right text is.
   */
  lemma ComparisonExamples(state: State, parse: IntParser, right: string)
    requires parse("3") == Some(3) && parse("10") == Some(10) && parse("abc") == None
    ensures LessThanInt(state, [Some("3"), Some("10")], parse).value == Some(StringValue("t"))
    ensures GreaterThanInt(state, [Some("3"), Some("10")], parse).value == Some(StringValue(""))
    ensures var r := LessThanInt(state, [Some("abc"), Some(right)], parse);
            r.value == None && r.state.errmsg == "failed to parse int in abc"
  {
    var less := LessThanInt(state, [Some("3"), Some("10")], parse);
    assert less.value.value.data == "t";
    var greater := GreaterThanInt(state, [Some("3"), Some("10")], parse);
    assert greater.value.value.data == "";
  }
}
