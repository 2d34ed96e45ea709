/**
 * The exception-trace resolver (_make_send_curr_exception_trace_str): follow
 * a traceback to its last link, normalise the exception's type and
 * description, and render the suspend composite rooted at the last link's frame.
 */
module ExceptionTrace {
  import opened Protocol
  import opened Frames
  import opened StackRender
  import opened Suspend

  const TypeUnknown := "exception: type unknown"
  const NoDescription := "exception: no description"

  /** str.replace('\t', '  '): every tab becomes two spaces. */
  function ReplaceTabs(s: string): (r: string)
    ensures '\t' !in r
    ensures '\t' !in s ==> r == s
    ensures |r| >= |s|
    ensures r == "" <==> s == ""
    decreases |s|
  {
    if s == [] then ""
    else (if s[0] == '\t' then "  " else [s[0]]) + ReplaceTabs(s[1..])
  }

  /**
   * A label as the resolver writes it: escaped, tabs replaced, and the
   * fallback when that leaves nothing.
   */
  function NormaliseLabel(env: Env, raw: string, fallback: string): (r: string)
    ensures fallback != "" ==> r != ""
    ensures '\t' !in fallback ==> '\t' !in r
    ensures env.validXml(raw) == "" ==> r == fallback
    ensures env.validXml(raw) != "" ==> r == ReplaceTabs(env.validXml(raw))
  {
    var v := ReplaceTabs(env.validXml(raw));
    if v != "" then v else fallback
  }

  /** Neither fallback label is empty or holds a tab. */
  lemma FallbacksClean()
    ensures TypeUnknown != "" && '\t' !in TypeUnknown
    ensures NoDescription != "" && '\t' !in NoDescription
  {
  }

  /** What the resolver returns: type, description, suspend composite, stack fragment. */
  datatype TraceParts = TraceParts(excType: string, excDesc: string, suspendStr: string, stackStr: string)

  /**
   * The last link of a traceback, reached by following tb_next; a None
   * traceback raises on the first tb_next.
   */
  method LastLink(trace: seq<seq<Frame>>) returns (r: Outcome<seq<Frame>>)
    ensures trace == [] ==> r == Raised(NoTraceback)
    ensures trace != [] ==> r == Ok(trace[|trace| - 1])
  {
    if trace == [] {
      return Raised(NoTraceback);
    }
    var i := 0;
    while i + 1 < |trace|
      invariant 0 <= i < |trace|
      decreases |trace| - i
    {
      i := i + 1;
    }
    r := Ok(trace[i]);
  }

  /** The attributes of the composite the resolver renders: its own stop reason, an empty message, suspend type "trace". */
  function TraceAttrs(env: Env): seq<Attr>
  {
    SuspendAttrs(env, Some(env.code(SendCurrExceptionTrace)), Some(""), Some("trace"))
  }

  /**
   * _make_send_curr_exception_trace_str: the stack is rendered from the last
   * link's frame with f_lineno lines, and both labels are normalised.
   */
  method MakeSendCurrExceptionTraceStr(env: Env, threadId: string, excType: string, excDesc: string,
                                       trace: seq<seq<Frame>>)
    returns (r: Outcome<TraceParts>)
    ensures trace == [] ==> r == Raised(NoTraceback)
    ensures trace != [] ==> r.Ok?
    ensures r.Ok? ==> r.value.excType == NormaliseLabel(env, excType, TypeUnknown)
    ensures r.Ok? ==> r.value.excDesc == NormaliseLabel(env, excDesc, NoDescription)
    ensures r.Ok? ==> r.value.stackStr == StackOf(env, trace[|trace| - 1], None)
    ensures r.Ok? ==> r.value.suspendStr == SuspendXml(threadId, TraceAttrs(env), r.value.stackStr)
  {
    var last := LastLink(trace);
    if last.Raised? {
      return Raised(last.fault);
    }
    var t := NormaliseLabel(env, excType, TypeUnknown);
    var d := NormaliseLabel(env, excDesc, NoDescription);
    var suspendStr, stackStr := MakeThreadSuspendStr(env, threadId, last.value,
                                                     Some(env.code(SendCurrExceptionTrace)), Some(""), Some("trace"), None);
    r := Ok(TraceParts(t, d, suspendStr, stackStr));
  }

  /**
   * make_send_curr_exception_trace_message: the payload is the current frame
   * id, the type, the description and the composite joined by tabs, and a
   * client splitting it at the first three tabs gets those four back.
   */
  method MakeSendCurrExceptionTraceMessage(env: Env, seqNo: int, threadId: string, currFrameId: int,
                                           excType: string, excDesc: string, trace: seq<seq<Frame>>)
    returns (cmd: Command)
    ensures cmd.seqNo == seqNo && cmd.cache.None?
    ensures trace == [] ==> cmd == MakeErrorMessage(seqNo, env.tracebackText(NoTraceback))
    ensures trace != [] ==> cmd.kind == SendCurrExceptionTrace
    ensures trace != [] ==>
              var f := SplitFields(cmd.text, 3);
              f[0] == IntText(currFrameId) &&
              f[1] == NormaliseLabel(env, excType, TypeUnknown) &&
              f[2] == NormaliseLabel(env, excDesc, NoDescription) &&
              f[3] == SuspendXml(threadId, TraceAttrs(env), StackOf(env, trace[|trace| - 1], None))
  {
    var parts := MakeSendCurrExceptionTraceStr(env, threadId, excType, excDesc, trace);
    if parts.Raised? {
      return Guard(env, SendCurrExceptionTrace, seqNo, seqNo, Raised(parts.fault));
    }
    var p := parts.value;
    FallbacksClean();
    var payload := IntText(currFrameId) + "\t" + (p.excType + "\t" + (p.excDesc + "\t" + p.suspendStr));
    PayloadFields(IntText(currFrameId), p.excType, p.excDesc, p.suspendStr);
    cmd := Guard(env, SendCurrExceptionTrace, seqNo, seqNo, Ok(payload));
  }

  /** The send-curr-exception payload splits back into its four fields. */
  lemma PayloadFields(id: string, t: string, d: string, rest: string)
    requires '\t' !in id && '\t' !in t && '\t' !in d
    ensures var f := SplitFields(id + "\t" + (t + "\t" + (d + "\t" + rest)), 3);
      f[0] == id && f[1] == t && f[2] == d && f[3] == rest
  {
    var tail := d + "\t" + rest;
    var middle := t + "\t" + tail;
    SplitAtTabJoin(id, middle);
    SplitAtTabJoin(t, tail);
    SplitAtTabJoin(d, rest);
  }
}
