/** The playground's value formatter (`formatOutput`) and its console
    capture object (`consoleCapture`): how the arguments of one console
    call become one output line. */
module Format {
  import opened Seqs

  /** What `JSON.stringify(value, null, 2)` does with one object: produce a
      text, produce `undefined` (a `toJSON` returning undefined), or throw
      (a cycle, a BigInt member, a throwing getter). The serialiser itself is
      not modelled; its outcome travels with the value. */
  datatype JsonOutcome = JsonText(text: string) | JsonUndefined | JsonThrows

  /** A JavaScript value as the formatter sees it. `Scalar` stands for any
      other value that takes the `String` branch (numbers, bigints, symbols,
      functions) and carries its `String(v)` rendering; `Object` is a
      non-null value of type "object", carrying its serialisation outcome
      and its `String(v)` rendering. */
  datatype Value =
    | Undefined
    | Null
    | Bool(b: bool)
    | Str(s: string)
    | Scalar(text: string)
    | Object(json: JsonOutcome, text: string)

  /** `String(v)`. */
  function StringOf(v: Value): string
  {
    match v
    case Undefined => "undefined"
    case Null => "null"
    case Bool(b) => if b then "true" else "false"
    case Str(s) => s
    case Scalar(t) => t
    case Object(_, t) => t
  }

  /** The text one argument contributes to the joined line. When the
      serialiser returns `undefined`, `join` renders that element as "". */
  function FormatArg(v: Value): (r: string)
    ensures !v.Object? ==> r == StringOf(v)
    ensures v.Object? && v.json.JsonText? ==> r == v.json.text
    ensures v.Object? && v.json.JsonThrows? ==> r == StringOf(v)
    ensures v.Object? && v.json.JsonUndefined? ==> r == ""
  {
    if v.Object? then
      match v.json
      case JsonText(t) => t
      case JsonUndefined => ""
      case JsonThrows => v.text
    else StringOf(v)
  }

  function FormatArgs(args: seq<Value>): (r: seq<string>)
    ensures |r| == |args|
    ensures forall i :: 0 <= i < |args| ==> r[i] == FormatArg(args[i])
  {
    if |args| == 0 then [] else [FormatArg(args[0])] + FormatArgs(args[1..])
  }

  /** `formatOutput(args)`: each argument rendered on its own, joined by
      one space. */
  function FormatOutput(args: seq<Value>): (r: string)
    ensures |args| == 0 ==> r == ""
    ensures |args| == 1 ==> r == FormatArg(args[0])
    ensures |args| > 0 ==> FormatArg(args[0]) <= r
    ensures |args| > 1 ==> |r| > |FormatArg(args[0])| && r[|FormatArg(args[0])|] == ' '
  {
    Join(FormatArgs(args), " ")
  }

  /** Formatting a concatenation of argument lists is formatting each list
      and putting exactly one space between the two results. */
  lemma FormatOutputAppend(a: seq<Value>, b: seq<Value>)
    requires |a| > 0 && |b| > 0
    ensures FormatOutput(a + b) == FormatOutput(a) + " " + FormatOutput(b)
  {
    assert FormatArgs(a + b) == FormatArgs(a) + FormatArgs(b);
    JoinAppend(FormatArgs(a), FormatArgs(b), " ");
  }

  /** One argument is formatted on its own, without any separator; no
      arguments give the empty string. */
  lemma FormatOutputSingle(v: Value)
    ensures FormatOutput([v]) == FormatArg(v)
    ensures FormatOutput([]) == ""
  {
  }

  /** `null` and `undefined` take the `String` branch, never the
      serialiser. */
  lemma FormatNullUndefined()
    ensures FormatOutput([Null]) == "null"
    ensures FormatOutput([Undefined]) == "undefined"
  {
  }

  /** The four console methods the capture object provides. */
  datatype Channel = Log | Warn | Error | Info

  /** The decoration each console method puts before the formatted text. */
  function Prefix(c: Channel): string
  {
    match c
    case Log => ""
    case Warn => "⚠️ WARN: "
    case Error => "❌ ERROR: "
    case Info => "ℹ️ INFO: "
  }

  /** One call `console.<channel>(...args)` made by the running code. */
  datatype Emission = Emission(channel: Channel, args: seq<Value>)

  function LineOf(e: Emission): string
  {
    Prefix(e.channel) + FormatOutput(e.args)
  }

  /** The `logs` array after the given calls, starting from a fresh array:
      one line per call, in call order, each its channel's prefix followed by
      the formatted arguments. */
  function CaptureLines(es: seq<Emission>): (r: seq<string>)
    ensures |r| == |es|
    ensures forall i :: 0 <= i < |es| ==> r[i] == Prefix(es[i].channel) + FormatOutput(es[i].args)
  {
    if |es| == 0 then [] else CaptureLines(es[..|es| - 1]) + [LineOf(es[|es| - 1])]
  }

  /** Calls made later land after calls made earlier; nothing is reordered
      or dropped. */
  lemma CaptureAppend(a: seq<Emission>, b: seq<Emission>)
    ensures CaptureLines(a + b) == CaptureLines(a) + CaptureLines(b)
  {
    var l := CaptureLines(a + b);
    var r := CaptureLines(a) + CaptureLines(b);
    assert |l| == |r|;
    forall i | 0 <= i < |l|
      ensures l[i] == r[i]
    {
      if i < |a| {
        assert (a + b)[i] == a[i];
      } else {
        assert (a + b)[i] == b[i - |a|];
      }
    }
  }

  /** The capture object driven call by call, as the running code drives it:
      each call pushes exactly one line onto the array. */
  method Capture(es: seq<Emission>) returns (logs: seq<string>)
    ensures |logs| == |es|
    ensures forall i :: 0 <= i < |es| ==> logs[i] == Prefix(es[i].channel) + FormatOutput(es[i].args)
  {
    logs := [];
    var k := 0;
    while k < |es|
      invariant 0 <= k <= |es|
      invariant |logs| == k
      invariant forall i :: 0 <= i < k ==> logs[i] == Prefix(es[i].channel) + FormatOutput(es[i].args)
    {
      logs := logs + [LineOf(es[k])];
      k := k + 1;
    }
  }
}
