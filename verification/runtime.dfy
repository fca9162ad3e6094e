/** The parts of the Python runtime the model keeps abstract, and the numeric
    conversions it models exactly.

    The regular-expression match of a settings line, `int()`/`float()` parsing of
    a token, rendering a number through a format string and `round` are passed in
    as a `Builtins` record of functions: the model relies on nothing about them
    beyond what `MatcherSound` and `RenderSound` state. */
module Runtime {
  import opened Wrappers

  /** A number as the settings file holds it: a Python `int` or `float`. Floats are
      exact reals here; IEEE rounding is not modelled. */
  datatype Num = IntNum(i: int) | FloatNum(f: real)

  /** A number as a real, for comparisons between an `int` and a `float`. */
  function AsReal(n: Num): real {
    match n
    case IntNum(i) => i as real
    case FloatNum(f) => f
  }

  /** `int(x)` of a float: rounding toward zero. */
  function Truncate(x: real): (r: int)
    ensures 0.0 <= x ==> 0.0 <= r as real <= x < r as real + 1.0
    ensures x < 0.0 ==> r as real - 1.0 < x <= r as real <= 0.0
  {
    if x >= 0.0 then x.Floor else -((-x).Floor)
  }

  /** `int(n)`. */
  function ToInt(n: Num): int {
    match n
    case IntNum(i) => i
    case FloatNum(f) => Truncate(f)
  }

  /** `float(n)`. */
  function ToFloat(n: Num): real {
    AsReal(n)
  }

  /** The format descriptor of a settings entry: the Python format spec `d`,
      `.<places>f` or `.<places>e`. */
  datatype Fmt = IntFmt | FixedFmt(places: nat) | ExpFmt(places: nat)

  datatype Builtins = Builtins(
    /** `line_format.search(line)`: the `number` and `comment` groups, if any. */
    matchLine: string -> Option<(string, string)>,
    /** `int(s)`; `None` where Python raises `ValueError`. */
    parseInt: string -> Option<int>,
    /** `float(s)`; `None` where Python raises `ValueError`. */
    parseFloat: string -> Option<real>,
    /** `fmt.format(n)`. */
    render: (Fmt, Num) -> string,
    /** `'{0:.1f}'.format(t)`. */
    renderTemperature: real -> string,
    /** `round(x, 0)`. */
    round: real -> real)

  /** A character of the `number` group `[\.e\+\-0-9]`. */
  predicate IsTokenChar(c: char) {
    c == '.' || c == 'e' || c == '+' || c == '-' || '0' <= c <= '9'
  }

  /** A character of the `comment` group `[\S ]`: anything but a tab, newline,
      carriage return, vertical tab or form feed. */
  predicate IsCommentChar(c: char) {
    c != '\t' && c != '\n' && c != '\r' && c != '\U{000B}' && c != '\U{000C}'
  }

  /** What the line pattern guarantees of every match it reports: a non-empty
      numeric token, a non-empty single-line comment, and a `!` in the line. */
  ghost predicate MatcherSound(b: Builtins) {
    forall line :: b.matchLine(line).Some? ==>
      var (token, comment) := b.matchLine(line).value;
      && |token| > 0
      && (forall k :: 0 <= k < |token| ==> IsTokenChar(token[k]))
      && |comment| > 0
      && (forall k :: 0 <= k < |comment| ==> IsCommentChar(comment[k]))
      && '!' in line
  }

  /** A rendered number is a single line without a `!`. */
  ghost predicate RenderSound(b: Builtins) {
    forall f, n :: '\n' !in b.render(f, n) && '!' !in b.render(f, n)
  }
}
