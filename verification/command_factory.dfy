/**
 * The command builders of NetCommandFactory that answer requests about a
 * thread's stack and exception, and the small payload builders.
 */
module CommandFactory {
  import opened Protocol
  import opened Frames
  import opened StackRender
  import opened Suspend
  import opened ExceptionTrace

  /** The start of a thread-stack answer. */
  function StackOpen(threadId: string): string
  {
    "<xml><thread id=\"" + threadId + "\">"
  }

  /** A stored stack string counts only when it is present and not empty. */
  predicate Truthy(s: Option<string>)
  {
    s.Some? && s.value != ""
  }

  /**
   * make_get_thread_stack_message. With no frame the answer is an empty
   * <thread> element. Otherwise the chain is searched for the debugger's
   * suspension frame: at the first one, its stored stack string is reused if it
   * is not empty, and the stack is rendered from the topmost frame otherwise;
   * with no suspension frame the stack is rendered too, unless the thread must
   * be suspended, in which case there is no answer at all. A frame without
   * f_code met first turns the answer into an error command.
   */
  method MakeGetThreadStackMessage(env: Env, seqNo: int, threadId: string, topmost: seq<Frame>, mustBeSuspended: bool)
    returns (r: Option<Command>)
    ensures topmost == [] ==> r == Some(NetCommand(GetThreadStack, seqNo, StackOpen(threadId) + SuspendClose))
    ensures r.None? <==> topmost != [] && FindMarker(topmost, false, 0).Exhausted? && mustBeSuspended
    ensures topmost != [] && FindMarker(topmost, false, 0).Faulted? ==>
              r == Some(MakeErrorMessage(seqNo, env.tracebackText(NoCode)))
    ensures topmost != [] && FindMarker(topmost, false, 0).Found? ==>
              var stored := topmost[FindMarker(topmost, false, 0).at].storedStack;
              (Truthy(stored) ==>
                 r == Some(NetCommand(GetThreadStack, seqNo, StackOpen(threadId) + stored.value + SuspendClose))) &&
              (!Truthy(stored) ==>
                 r == Some(NetCommand(GetThreadStack, seqNo, StackOpen(threadId) + StackOf(env, topmost, None) + SuspendClose)))
    ensures topmost != [] && FindMarker(topmost, false, 0).Exhausted? && !mustBeSuspended ==>
              r == Some(NetCommand(GetThreadStack, seqNo, StackOpen(threadId) + StackOf(env, topmost, None) + SuspendClose))
  {
    var text := StackOpen(threadId);
    if topmost != [] {
      var i := 0;
      var found := false;
      var stored: Option<string> := None;
      while i < |topmost|
        invariant 0 <= i <= |topmost|
        invariant FindMarker(topmost, false, i) == FindMarker(topmost, false, 0)
        decreases |topmost| - i
      {
        var f := topmost[i];
        if f.code.None? {
          return Some(Guard(env, GetThreadStack, seqNo, seqNo, Raised(NoCode)));
        }
        if IsMarker(f) {
          stored := f.storedStack;
          found := true;
          break;
        }
        i := i + 1;
      }
      if !found && mustBeSuspended {
        return None;
      }
      var inner: string;
      if Truthy(stored) {
        inner := stored.value;
      } else {
        inner := MakeThreadStackStr(env, topmost, None);
      }
      text := text + inner;
    }
    text := text + SuspendClose;
    r := Some(NetCommand(GetThreadStack, seqNo, text));
  }

  /** The start of an exception-details answer: the thread tag, left open for attributes. */
  function DetailsOpen(threadId: string): string
  {
    "<xml><thread id=\"" + threadId + "\" "
  }

  function ExcTypeAttr(excType: string): string
  {
    "exc_type=\"" + excType + "\" "
  }

  function ExcDescAttr(excDesc: string): string
  {
    "exc_desc=\"" + excDesc + "\" "
  }

  /**
   * make_get_exception_details_message. The chain is searched for the first
   * suspension frame that keeps exception arguments (one without them does not
   * end the search); its normalised type and description become attributes,
   * and the stack rendered from the last traceback link follows the start
   * tag's end. With no such frame the tag is only closed. With no frame at
   * all the tag is left unclosed, as written. A frame without f_code met
   * first, or a None traceback, turns the answer into an error command.
   */
  method MakeGetExceptionDetailsMessage(env: Env, seqNo: int, threadId: string, topmost: seq<Frame>)
    returns (cmd: Command)
    ensures cmd.seqNo == seqNo && cmd.cache.None?
    ensures topmost == [] ==> cmd == NetCommand(GetExceptionDetails, seqNo, DetailsOpen(threadId) + SuspendClose)
    ensures topmost != [] && FindMarker(topmost, true, 0).Faulted? ==>
              cmd == MakeErrorMessage(seqNo, env.tracebackText(NoCode))
    ensures topmost != [] && FindMarker(topmost, true, 0).Exhausted? ==>
              cmd == NetCommand(GetExceptionDetails, seqNo, DetailsOpen(threadId) + ">" + SuspendClose)
    ensures topmost != [] && FindMarker(topmost, true, 0).Found? ==>
              var arg := topmost[FindMarker(topmost, true, 0).at].storedArg.value;
              (arg.trace == [] ==> cmd == MakeErrorMessage(seqNo, env.tracebackText(NoTraceback))) &&
              (arg.trace != [] ==>
                 cmd == NetCommand(GetExceptionDetails, seqNo,
                          DetailsOpen(threadId)
                          + ExcTypeAttr(NormaliseLabel(env, arg.excType, TypeUnknown))
                          + ExcDescAttr(NormaliseLabel(env, arg.excDesc, NoDescription))
                          + ">" + StackOf(env, arg.trace[|arg.trace| - 1], None) + SuspendClose))
  {
    var text := DetailsOpen(threadId);
    if topmost != [] {
      var i := 0;
      var found := false;
      while i < |topmost|
        invariant 0 <= i <= |topmost|
        invariant FindMarker(topmost, true, i) == FindMarker(topmost, true, 0)
        invariant !found
        decreases |topmost| - i
      {
        var f := topmost[i];
        if f.code.None? {
          return Guard(env, GetExceptionDetails, seqNo, seqNo, Raised(NoCode));
        }
        if IsMarker(f) {
          var arg := f.storedArg;
          if arg.Some? {
            var parts := MakeSendCurrExceptionTraceStr(env, threadId, arg.value.excType, arg.value.excDesc, arg.value.trace);
            if parts.Raised? {
              return Guard(env, GetExceptionDetails, seqNo, seqNo, Raised(parts.fault));
            }
            text := text + ExcTypeAttr(parts.value.excType);
            text := text + ExcDescAttr(parts.value.excDesc);
            text := text + ">";
            text := text + parts.value.stackStr;
            found := true;
            break;
          }
        }
        i := i + 1;
      }
      if !found {
        text := text + ">";
      }
    }
    text := text + SuspendClose;
    cmd := Guard(env, GetExceptionDetails, seqNo, seqNo, Ok(text));
  }

  /** MAX_IO_MSG_SIZE, the longest text an I/O command carries untruncated. */
  const MaxIoMsgSize: nat := 1000

  /**
   * The I/O text as sent: unchanged up to `limit` characters; a longer one is
   * cut to its first `limit` characters followed by "...".
   */
  function Truncate(v: string, limit: nat): (r: string)
    ensures |r| <= limit + 3
    ensures |v| <= limit ==> r == v
    ensures |v| > limit ==> |r| == limit + 3 && r[..limit] == v[..limit] && r[limit..] == "..."
  {
    if |v| > limit then v[..limit] + "..." else v
  }

  /** The characters quote_smart leaves alone in I/O text. */
  const IoSafe := "/>_= "

  /** The I/O element for an already truncated text and a channel (1 stdout, 2 stderr). */
  function IoXml(env: Env, s: string, ctx: int): string
  {
    "<xml><io s=\"" + env.validXml(env.quote(s, IoSafe)) + "\" ctx=\"" + IntText(ctx) + "\"/></xml>"
  }

  /** make_io_message: truncation happens before the text is quoted and escaped. */
  function MakeIoMessage(env: Env, v: string, ctx: int): (cmd: Command)
    ensures cmd.kind == WriteToConsole && cmd.seqNo == 0 && cmd.cache.None?
    ensures |v| <= MaxIoMsgSize ==> cmd.text == IoXml(env, v, ctx)
    ensures |v| > MaxIoMsgSize ==> cmd.text == IoXml(env, v[..MaxIoMsgSize] + "...", ctx)
  {
    NetCommand(WriteToConsole, 0, IoXml(env, Truncate(v, MaxIoMsgSize), ctx))
  }

  /** make_thread_run_message: the thread id and the reason joined by a tab. */
  function MakeThreadRunMessage(threadId: string, reason: int): (cmd: Command)
    ensures cmd.kind == ThreadRun && cmd.seqNo == 0 && cmd.cache.None?
    ensures cmd.text == threadId + "\t" + IntText(reason)
  {
    NetCommand(ThreadRun, 0, threadId + "\t" + IntText(reason))
  }

  /** A client splitting a thread-run payload at its first tab gets the thread id and the reason back. */
  lemma ThreadRunFields(threadId: string, reason: int)
    requires '\t' !in threadId
    ensures var f := SplitFields(MakeThreadRunMessage(threadId, reason).text, 1);
      f[0] == threadId && f[1] == IntText(reason)
  {
    SplitAtTabJoin(threadId, IntText(reason));
  }

  /**
   * make_set_next_stmnt_status_message: the outcome as True or False and the
   * exception message joined by a tab, which a client splits back into both.
   */
  function MakeSetNextStmntStatusMessage(seqNo: int, isSuccess: bool, exceptionMsg: string): (cmd: Command)
    ensures cmd.kind == SetNextStatement && cmd.seqNo == seqNo && cmd.cache.None?
    ensures '\t' in cmd.text
    ensures var f := SplitFields(cmd.text, 1);
      f[0] == BoolText(isSuccess) && f[1] == exceptionMsg
  {
    SplitAtTabJoin(BoolText(isSuccess), exceptionMsg);
    NetCommand(SetNextStatement, seqNo, BoolText(isSuccess) + "\t" + exceptionMsg)
  }

  /** The builders that wrap a payload computed elsewhere. */
  datatype PassThrough =
    | VariableChanged | GetVariableMsg | GetArrayMsg | GetDescriptionMsg | GetFrameMsg
    | EvaluateExpressionMsg | GetCompletionsMsg | GetFileContentsMsg | BreakpointExceptionMsg
    | ConsoleMsg | CustomOperationMsg | LoadFullValueMsg | NextStatementTargetsMsg

  /** The command identifier each pass-through builder sends. */
  function KindOf(b: PassThrough): Kind
  {
    match b
    case VariableChanged => Return
    case GetVariableMsg => GetVariable
    case GetArrayMsg => GetArray
    case GetDescriptionMsg => GetDescription
    case GetFrameMsg => GetFrame
    case EvaluateExpressionMsg => EvaluateExpression
    case GetCompletionsMsg => GetCompletions
    case GetFileContentsMsg => GetFileContents
    case BreakpointExceptionMsg => GetBreakpointException
    case ConsoleMsg => EvaluateConsoleExpression
    case CustomOperationMsg => RunCustomOperation
    case LoadFullValueMsg => LoadFullValue
    case NextStatementTargetsMsg => GetNextStatementTargets
  }

  /**
   * A pass-through builder: the payload is sent unchanged under the caller's
   * sequence number, and no two builders share a command identifier. The last
   * two clauses follow from the distinct constructors of Kind alone; they say
   * nothing about the numeric CMD_* values, which Env.code leaves open.
   */
  function MakePassThroughMessage(b: PassThrough, seqNo: int, payload: string): (cmd: Command)
    ensures cmd.kind == KindOf(b) && cmd.seqNo == seqNo && cmd.text == payload && cmd.cache.None?
    ensures cmd.kind != Error
    ensures forall b' :: b' != b ==> KindOf(b') != cmd.kind
  {
    NetCommand(KindOf(b), seqNo, payload)
  }
}
