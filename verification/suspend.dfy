/**
 * The suspend composite (make_thread_suspend_str): a <thread> element carrying
 * the optional stop_reason, message and suspend_type attributes around the
 * rendered stack, and the suspend command that keeps both strings.
 */
module Suspend {
  import opened Protocol
  import opened Frames
  import opened StackRender

  /** One attribute of the <thread> start tag. */
  datatype Attr = Attr(name: string, value: string)

  const StopReasonName := "stop_reason"
  const MessageName := "message"
  const SuspendTypeName := "suspend_type"

  /** The position an optional attribute takes in the start tag. */
  function AttrRank(name: string): nat
  {
    if name == StopReasonName then 0 else if name == MessageName then 1 else 2
  }

  /**
   * The message as written into the tag: escaped only when it is non-empty.
   * The contract states that rule directly and needs no proof of its own.
   */
  function MessageValue(env: Env, message: string): (v: string)
    ensures message == "" ==> v == ""
    ensures message != "" ==> v == env.validXml(message)
  {
    if message != "" then env.validXml(message) else message
  }

  /** An attribute that is written only when its value is not None. */
  function OptAttr(name: string, value: Option<string>): seq<Attr>
  {
    if value.Some? then [Attr(name, value.value)] else []
  }

  /** The value of the first attribute with the given name, None when there is none. */
  function AttrValue(attrs: seq<Attr>, name: string): Option<string>
    decreases |attrs|
  {
    if attrs == [] then None
    else if attrs[0].name == name then Some(attrs[0].value)
    else AttrValue(attrs[1..], name)
  }

  lemma {:induction false} AttrValueAppend(a: seq<Attr>, b: seq<Attr>, name: string)
    ensures AttrValue(a + b, name) == if AttrValue(a, name).Some? then AttrValue(a, name) else AttrValue(b, name)
    decreases |a|
  {
    if a != [] {
      assert (a + b)[0] == a[0] && (a + b)[1..] == a[1..] + b;
      AttrValueAppend(a[1..], b, name);
    } else {
      assert a + b == b;
    }
  }

  /**
   * The optional attributes the suspend composite writes: stop_reason,
   * message and suspend_type, each present exactly when it is not None, with
   * the value written, and in that order.
   */
  function SuspendAttrs(env: Env, stopReason: Option<int>, message: Option<string>, suspendType: Option<string>)
    : (attrs: seq<Attr>)
    ensures forall k :: 0 <= k < |attrs| ==>
              attrs[k].name in {StopReasonName, MessageName, SuspendTypeName}
    ensures forall k :: 0 < k < |attrs| ==> AttrRank(attrs[k - 1].name) < AttrRank(attrs[k].name)
    ensures AttrValue(attrs, StopReasonName) == if stopReason.Some? then Some(IntText(stopReason.value)) else None
    ensures AttrValue(attrs, MessageName) == if message.Some? then Some(MessageValue(env, message.value)) else None
    ensures AttrValue(attrs, SuspendTypeName) == suspendType
  {
    var a := OptAttr(StopReasonName, if stopReason.Some? then Some(IntText(stopReason.value)) else None);
    var b := OptAttr(MessageName, if message.Some? then Some(MessageValue(env, message.value)) else None);
    var c := OptAttr(SuspendTypeName, suspendType);
    AttrValueAppend(a + b, c, StopReasonName);
    AttrValueAppend(a, b, StopReasonName);
    AttrValueAppend(a + b, c, MessageName);
    AttrValueAppend(a, b, MessageName);
    AttrValueAppend(a + b, c, SuspendTypeName);
    AttrValueAppend(a, b, SuspendTypeName);
    a + b + c
  }

  /** The wire text of attributes: each one as ` name="value"`. */
  function AttrsXml(attrs: seq<Attr>): string
    decreases |attrs|
  {
    if attrs == [] then "" else " " + attrs[0].name + "=\"" + attrs[0].value + "\"" + AttrsXml(attrs[1..])
  }

  const SuspendClose := "</thread></xml>"

  /** The start of the composite, up to the attributes. */
  function ThreadOpen(threadId: string): string
  {
    "<xml><thread id=\"" + threadId + "\""
  }

  /**
   * The composite for a thread id, its attributes and a stack fragment: the
   * fragment is exactly the text between the start tag and the closing tags.
   */
  function SuspendXml(threadId: string, attrs: seq<Attr>, stack: string): (r: string)
    ensures var head := ThreadOpen(threadId) + AttrsXml(attrs) + ">";
      |r| == |head| + |stack| + |SuspendClose| &&
      r[..|head|] == head &&
      r[|head|..|head| + |stack|] == stack &&
      r[|head| + |stack|..] == SuspendClose
  {
    var head := ThreadOpen(threadId) + AttrsXml(attrs) + ">";
    var r := head + stack + SuspendClose;
    assert r[..|head|] == head;
    assert r[|head|..|head| + |stack|] == stack;
    r
  }

  /**
   * make_thread_suspend_str: the first result is the composite around the
   * stack fragment, the second the fragment itself, rendered once.
   */
  method MakeThreadSuspendStr(env: Env, threadId: string, chain: seq<Frame>, stopReason: Option<int>,
                              message: Option<string>, suspendType: Option<string>, overrides: Option<LineMap>)
    returns (suspendStr: string, stackStr: string)
    ensures stackStr == StackOf(env, chain, overrides)
    ensures suspendStr == SuspendXml(threadId, SuspendAttrs(env, stopReason, message, suspendType), stackStr)
  {
    var msg := message;
    if msg.Some? && msg.value != "" {
      msg := Some(env.validXml(msg.value));
    }
    var reason := if stopReason.Some? then Some(IntText(stopReason.value)) else None;
    var attrs: seq<Attr> := [];
    attrs := attrs + OptAttr(StopReasonName, reason);
    attrs := attrs + OptAttr(MessageName, msg);
    attrs := attrs + OptAttr(SuspendTypeName, suspendType);
    assert [] + OptAttr(StopReasonName, reason) == OptAttr(StopReasonName, reason);
    var head := ThreadOpen(threadId) + AttrsXml(attrs) + ">";
    stackStr := MakeThreadStackStr(env, chain, overrides);
    suspendStr := head;
    suspendStr := suspendStr + stackStr;
    suspendStr := suspendStr + SuspendClose;
  }

  /**
   * make_thread_suspend_message: an unsolicited suspend command whose payload
   * is the composite, keeping the composite and the stack fragment beside it.
   */
  method MakeThreadSuspendMessage(env: Env, threadId: string, chain: seq<Frame>, stopReason: Option<int>,
                                  message: Option<string>, suspendType: Option<string>, overrides: Option<LineMap>)
    returns (cmd: Command)
    ensures cmd.kind == ThreadSuspend && cmd.seqNo == 0
    ensures cmd.cache.Some? && cmd.cache.value.threadSuspendStr == cmd.text
    ensures cmd.cache.value.threadStackStr == StackOf(env, chain, overrides)
    ensures cmd.text == SuspendXml(threadId, SuspendAttrs(env, stopReason, message, suspendType), StackOf(env, chain, overrides))
  {
    var suspendStr, stackStr := MakeThreadSuspendStr(env, threadId, chain, stopReason, message, suspendType, overrides);
    cmd := NetCommand(ThreadSuspend, 0, suspendStr);
    cmd := cmd.(cache := Some(Cache(stackStr, suspendStr)));
  }
}
