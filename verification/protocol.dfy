/**
 * Commands sent from the debuggee to the debugging client, the failures a
 * builder can hit while formatting one, and the collaborators the command
 * factory relies on but does not define (escaping, diagnostic text, the
 * numeric command identifiers).
 */
module Protocol {

  datatype Option<T> = None | Some(value: T)

  /** The command identifiers (the CMD_* constants) emitted by the modelled builders. */
  datatype Kind =
    | ThreadSuspend | ThreadRun | GetVariable | EvaluateExpression | GetFrame
    | WriteToConsole | GetCompletions | SetNextStatement | GetFileContents
    | EvaluateConsoleExpression | RunCustomOperation | GetBreakpointException
    | SendCurrExceptionTrace | GetArray | GetDescription | LoadFullValue
    | GetThreadStack | GetExceptionDetails | GetNextStatementTargets | Return | Error

  /** The two strings a suspend command carries beside its payload, for later reuse. */
  datatype Cache = Cache(threadStackStr: string, threadSuspendStr: string)

  /** A command: identifier, sequence number (0 when unsolicited), payload text. */
  datatype Command = Command(kind: Kind, seqNo: int, text: string, cache: Option<Cache>)

  /** The exceptions a builder can raise while formatting, in the modelled inputs. */
  datatype Fault =
    | NoCode       // a frame's f_code is None while looking for the suspension marker
    | NoTraceback  // the traceback object handed to the exception resolver is None

  /** The result of a formatting step that may raise. */
  datatype Outcome<T> = Ok(value: T) | Raised(fault: Fault)

  /**
   * Collaborators outside this layer. Their behaviour is not modelled: every
   * property below holds for any functions put here.
   *   validXml      -- pydevd_xml.make_valid_xml_value
   *   quote         -- quote_smart(text, safe)
   *   tracebackText -- get_exception_traceback_str() while handling the fault
   *   code          -- the numeric value of a CMD_* constant
   */
  datatype Env = Env(
    validXml: string -> string,
    quote: (string, string) -> string,
    tracebackText: Fault -> string,
    code: Kind -> int)

  /** A freshly built command, with nothing attached yet. */
  function NetCommand(kind: Kind, seqNo: int, text: string): Command
  {
    Command(kind, seqNo, text, None)
  }

  /**
   * make_error_message: the command every failure is turned into. The
   * contract is the builder's whole promise and needs no proof of its own;
   * the builders that fall back on it cite it.
   */
  function MakeErrorMessage(seqNo: int, text: string): (cmd: Command)
    ensures cmd.kind == Error && cmd.seqNo == seqNo && cmd.text == text
    ensures cmd.cache.None?
  {
    NetCommand(Error, seqNo, text)
  }

  /**
   * The catch-all every builder is wrapped in: a payload built without an
   * exception becomes a command of `kind` carrying `seqNo`; an exception becomes
   * an error command carrying `errSeq` (the caller's sequence number, or 0 in
   * the unsolicited builders) and the diagnostic text of that exception.
   */
  function Guard(env: Env, kind: Kind, seqNo: int, errSeq: int, body: Outcome<string>): (cmd: Command)
    ensures body.Ok? ==> cmd == NetCommand(kind, seqNo, body.value)
    ensures body.Raised? ==> cmd.kind == Error && cmd.seqNo == errSeq
    ensures body.Raised? ==> cmd.text == env.tracebackText(body.fault)
  {
    match body
    case Ok(payload) => NetCommand(kind, seqNo, payload)
    case Raised(fault) => MakeErrorMessage(errSeq, env.tracebackText(fault))
  }

  /** str(n) for a non-negative integer: its decimal digits, most significant first. */
  function NatText(n: nat): (r: string)
    ensures |r| > 0
    ensures forall i :: 0 <= i < |r| ==> '0' <= r[i] <= '9'
    decreases n
  {
    if n < 10 then ["0123456789"[n]] else NatText(n / 10) + ["0123456789"[n % 10]]
  }

  /** str(n) for any integer: a minus sign before the digits of a negative number. */
  function IntText(n: int): (r: string)
    ensures |r| > 0 && '\t' !in r
    ensures n >= 0 ==> r == NatText(n)
    ensures n < 0 ==> r == "-" + NatText(-n)
  {
    if n < 0 then "-" + NatText(-n) else NatText(n)
  }

  lemma ConcatAssoc<T>(a: seq<T>, b: seq<T>, c: seq<T>)
    ensures a + (b + c) == a + b + c
  {
  }

  /** str(b) for a boolean. */
  function BoolText(b: bool): string
  {
    if b then "True" else "False"
  }

  /** The text before the first tab and the text after it; without a tab, the whole text and "". */
  function SplitAtTab(s: string): (r: (string, string))
    ensures '\t' !in r.0
    ensures '\t' in s ==> s == r.0 + "\t" + r.1
    ensures '\t' !in s ==> r == (s, "")
    decreases |s|
  {
    if s == [] then ("", "")
    else if s[0] == '\t' then ("", s[1..])
    else
      var rest := SplitAtTab(s[1..]);
      assert s == [s[0]] + s[1..];
      ([s[0]] + rest.0, rest.1)
  }

  /** How a client reads a tab-separated payload: `n` tab-terminated fields and the remainder. */
  function SplitFields(s: string, n: nat): (r: seq<string>)
    ensures |r| == n + 1
    decreases n
  {
    if n == 0 then [s]
    else
      var (head, rest) := SplitAtTab(s);
      [head] + SplitFields(rest, n - 1)
  }

  lemma {:induction false} SplitAtTabJoin(a: string, b: string)
    requires '\t' !in a
    ensures SplitAtTab(a + "\t" + b) == (a, b)
    decreases |a|
  {
    if a == [] {
      assert a + "\t" + b == ['\t'] + b;
    } else {
      var s := a + "\t" + b;
      assert s[0] == a[0] && a[0] != '\t';
      assert s[1..] == a[1..] + "\t" + b;
      SplitAtTabJoin(a[1..], b);
      assert [a[0]] + a[1..] == a;
    }
  }
}
