# pydevd NetCommandFactory, modelled in Dafny

This project models the message-encoding layer of the pydevd debugger
backend. That layer is the `NetCommandFactory` class, which turns debugger
state into `(command id, sequence number, payload)` commands for the
debugging client. It covers:

- **The frame-stack renderer** (`make_thread_stack_str`). It walks a frame
  chain through `f_back`. Frames whose file is a debugger file are skipped
  without ending the walk. Each other frame becomes one
  `<frame id name file line>` element, innermost first. The line comes from
  an override map when the frame is in it, and from `f_lineno` otherwise. A
  frame with no `f_code`, or with no code name, ends the walk. So does a frame
  whose path resolution raises; the renderer swallows that exception and
  returns what it has.
- **The suspend composite** (`make_thread_suspend_str` and
  `make_thread_suspend_message`). It builds a `<thread>` element around the
  rendered stack. The optional `stop_reason`, `message` and `suspend_type`
  attributes appear when they are not None, in that order. The resulting
  command keeps both the composite and the stack fragment.
- **The suspension-marker search**. `make_get_thread_stack_message` and
  `make_get_exception_details_message` look for the frame of
  `do_wait_suspend` in a file ending in `pydevd.py`. From that frame they
  reuse a stored stack string, or they recover stored exception arguments.
- **The exception-trace resolver** (`_make_send_curr_exception_trace_str`).
  It follows `tb_next` to the last link. It normalises the exception's type
  and description: tabs become two spaces, and an empty label becomes a
  default text. It then renders the suspend composite rooted at that link's
  frame.
- **The small builders**:
  - I/O truncation and the I/O command;
  - the tab-joined thread-run, set-next-statement and send-curr-exception
    payloads;
  - the error command;
  - the builders that pass an already serialised payload through;
  - the catch-all that turns a failure into an error command carrying the
    caller's sequence number, or 0 in the unsolicited builders.

How things are represented:

- **Frame chains** are sequences, innermost first. The empty sequence stands
  for a None frame.
- **Tracebacks** are sequences of links, each given by the frame chain of its
  `tb_frame`. The empty sequence stands for a None traceback.
- **Collaborators** the layer calls but does not define are fields of an `Env`
  value, and every property holds for any functions placed there:
  - `make_valid_xml_value`;
  - `quote_smart`;
  - the diagnostic text of the current exception;
  - the numeric command ids.
- **Failures.** Two exceptions a builder can raise are modelled, because the
  code turns them into error commands:
  - `f_code` being None during the marker search;
  - a None traceback.
- **Frame fields.** A frame also records whether resolving its path raises,
  whether its file is a debugger file, and its path as the client sees it.

Modules:

- `Protocol`: commands, faults, collaborators, the error command and the
  catch-all, `str()` of integers, and the client's tab splitting.
- `Frames`: frames and the marker search.
- `StackRender`: the stack renderer.
- `Suspend`: the suspend composite.
- `ExceptionTrace`: the exception-trace resolver.
- `CommandFactory`: the request builders and the small builders.

Facts about the code that the model keeps as written:

- The renderer's walk ends at a frame without `f_code`, at a frame without
  a code name, or where path resolution raises, not only when the chain is
  exhausted.
- The renderer does not make frame ids unique. `WalkIdsDistinct` shows they
  are unique in the output when they are unique in the chain.
- With a None topmost frame, the exception-details answer is
  `<xml><thread id="T" </thread></xml>`. The start tag is never closed.

## Model

| member | source | states |
|---|---|---|
| Protocol.MakeErrorMessage | src/ptvsd/_vendored/pydevd/_pydevd_bundle/pydevd_net_command_factory_xml.py:51-55 | the error command has kind CMD_ERROR, the given sequence number and the given text, and nothing attached |
| Protocol.Guard | src/ptvsd/_vendored/pydevd/_pydevd_bundle/pydevd_net_command_factory_xml.py:357-364 | the catch-all: a payload built without raising becomes a command of the builder's kind and sequence number; a raised fault becomes an error command carrying the caller's sequence number (or 0) and that fault's diagnostic text |
| Protocol.IntText | src/ptvsd/_vendored/pydevd/_pydevd_bundle/pydevd_net_command_factory_xml.py:205-206 | `str()` of an integer is non-empty, holds no tab, and is the decimal digits, preceded by a minus sign when negative |
| Frames.FindMarker | src/ptvsd/_vendored/pydevd/_pydevd_bundle/pydevd_net_command_factory_xml.py:112-116 | the search result names a frame in the chain: a found frame has `f_code` and is the wanted marker; a fault names a frame without `f_code` |
| Frames.FindMarkerSpec | src/ptvsd/_vendored/pydevd/_pydevd_bundle/pydevd_net_command_factory_xml.py:376-389 | the search stops at the first frame that lacks `f_code` (a fault) or is the wanted marker (found), and reports exhaustion exactly when every frame has `f_code` and none is wanted; a marker without `arg` does not stop the exception-details search |
| StackRender.MakeThreadStackStr | src/ptvsd/_vendored/pydevd/_pydevd_bundle/pydevd_net_command_factory_xml.py:161-213 | the loop's output is the concatenated elements of the specified walk, with a missing override map treated as empty |
| StackRender.StopFrom | src/ptvsd/_vendored/pydevd/_pydevd_bundle/pydevd_net_command_factory_xml.py:177-213 | the walk reaches exactly the frames before the first frame without `f_code`, without a code name, or whose path resolution raises |
| StackRender.WalkEmitsVisibleFrames | src/ptvsd/_vendored/pydevd/_pydevd_bundle/pydevd_net_command_factory_xml.py:177-208 | exactly one element per reached non-debugger frame, in chain order (innermost first); a skipped debugger frame does not end the walk |
| StackRender.WalkLines | src/ptvsd/_vendored/pydevd/_pydevd_bundle/pydevd_net_command_factory_xml.py:201-206 | each element carries its frame's id, code name and client path; its line is the override for that frame when there is one, else `f_lineno` |
| StackRender.WalkCount | src/ptvsd/_vendored/pydevd/_pydevd_bundle/pydevd_net_command_factory_xml.py:177-191 | of the N frames the walk reaches, the K debugger frames are dropped, leaving N - K elements |
| StackRender.WalkStopsAt | src/ptvsd/_vendored/pydevd/_pydevd_bundle/pydevd_net_command_factory_xml.py:180-213 | the output is that of the frames before the stopping frame, whatever follows it in the chain |
| StackRender.WalkIdsDistinct | src/ptvsd/_vendored/pydevd/_pydevd_bundle/pydevd_net_command_factory_xml.py:178 | frame ids are unique in the rendered stack when they are unique in the chain |
| Suspend.MessageValue | src/ptvsd/_vendored/pydevd/_pydevd_bundle/pydevd_net_command_factory_xml.py:250-251 | the message is escaped only when it is non-empty; an empty message is written as it is |
| Suspend.SuspendAttrs | src/ptvsd/_vendored/pydevd/_pydevd_bundle/pydevd_net_command_factory_xml.py:253-259 | only `stop_reason`, `message` and `suspend_type` appear, in that order; each has a value exactly when its argument is not None, and that value is the one written |
| Suspend.SuspendXml | src/ptvsd/_vendored/pydevd/_pydevd_bundle/pydevd_net_command_factory_xml.py:249-263 | the composite is the start tag with its attributes and `>`, then exactly the stack fragment, then `</thread></xml>` |
| Suspend.MakeThreadSuspendStr | src/ptvsd/_vendored/pydevd/_pydevd_bundle/pydevd_net_command_factory_xml.py:215-265 | the second result is the rendered stack; the first is the composite around that same fragment, with the specified attributes |
| Suspend.MakeThreadSuspendMessage | src/ptvsd/_vendored/pydevd/_pydevd_bundle/pydevd_net_command_factory_xml.py:267-276 | an unsolicited suspend command whose payload is the composite; it keeps the composite and the stack fragment |
| ExceptionTrace.ReplaceTabs | src/ptvsd/_vendored/pydevd/_pydevd_bundle/pydevd_net_command_factory_xml.py:350 | no tab is left; text without tabs is unchanged; the text does not shrink; the result is empty exactly when the input is |
| ExceptionTrace.NormaliseLabel | src/ptvsd/_vendored/pydevd/_pydevd_bundle/pydevd_net_command_factory_xml.py:350-351 | the escaped label with tabs replaced, or the fallback when the escaped label is empty; never empty and tab-free for a non-empty, tab-free fallback |
| ExceptionTrace.LastLink | src/ptvsd/_vendored/pydevd/_pydevd_bundle/pydevd_net_command_factory_xml.py:347-348 | following `tb_next` reaches the last link; a None traceback raises |
| ExceptionTrace.MakeSendCurrExceptionTraceStr | src/ptvsd/_vendored/pydevd/_pydevd_bundle/pydevd_net_command_factory_xml.py:346-355 | normalised type and description with their default texts; the stack is rendered from the last link's frame with `f_lineno` lines; the composite carries the exception stop reason, an empty message and suspend type "trace"; a None traceback raises |
| ExceptionTrace.PayloadFields | src/ptvsd/_vendored/pydevd/_pydevd_bundle/pydevd_net_command_factory_xml.py:361 | splitting the send-curr-exception payload at its first three tabs gives back the frame id, type, description and composite |
| ExceptionTrace.MakeSendCurrExceptionTraceMessage | src/ptvsd/_vendored/pydevd/_pydevd_bundle/pydevd_net_command_factory_xml.py:357-364 | the payload splits into the frame id, the normalised type and description, and the composite; a None traceback gives an error command with the caller's sequence number |
| CommandFactory.MakeGetThreadStackMessage | src/ptvsd/_vendored/pydevd/_pydevd_bundle/pydevd_net_command_factory_xml.py:93-127 | no frame gives an empty thread element; at the first marker a non-empty stored stack is reused, otherwise the stack is rendered; there is no answer exactly when no marker is found and the thread must be suspended; a frame without `f_code` gives an error command |
| CommandFactory.MakeGetExceptionDetailsMessage | src/ptvsd/_vendored/pydevd/_pydevd_bundle/pydevd_net_command_factory_xml.py:366-395 | at the first marker with `arg`: the `exc_type` and `exc_desc` attributes, `>`, and the stack from the last traceback link; with none, only `>`; with no frame, the unclosed tag; a frame without `f_code` or a None traceback gives an error command |
| CommandFactory.Truncate | src/ptvsd/_vendored/pydevd/_pydevd_bundle/pydevd_net_command_factory_xml.py:140-142 | text up to the limit is unchanged; longer text becomes its first `limit` characters followed by `...`; never longer than the limit plus 3 |
| CommandFactory.MakeIoMessage | src/ptvsd/_vendored/pydevd/_pydevd_bundle/pydevd_net_command_factory_xml.py:133-147 | an unsolicited console command whose `s` attribute escapes the text after truncation to 1000 characters |
| CommandFactory.MakeThreadRunMessage | src/ptvsd/_vendored/pydevd/_pydevd_bundle/pydevd_net_command_factory_xml.py:292-296 | an unsolicited thread-run command whose payload is the thread id and the reason joined by a tab |
| CommandFactory.ThreadRunFields | src/ptvsd/_vendored/pydevd/_pydevd_bundle/pydevd_net_command_factory_xml.py:294 | for a tab-free thread id, splitting the thread-run payload at its first tab gives back the thread id and the reason |
| CommandFactory.MakeSetNextStmntStatusMessage | src/ptvsd/_vendored/pydevd/_pydevd_bundle/pydevd_net_command_factory_xml.py:439-444 | a command with the caller's sequence number whose payload always holds the separating tab, even for an empty exception message, and splits at its first tab into `True`/`False` and the exception message |
| CommandFactory.MakePassThroughMessage | src/ptvsd/_vendored/pydevd/_pydevd_bundle/pydevd_net_command_factory_xml.py:129-465 | the thirteen builders that wrap a payload computed elsewhere (variable changed, get variable, get array, get description, get frame, evaluate expression, completions, file contents, breakpoint exception, console, custom operation, load full value, next-statement targets): the payload is sent unchanged under the caller's sequence number, with the builder's own command id, which no other pass-through builder shares and which is never CMD_ERROR |

## Left out

- Escaping is not modelled. `make_valid_xml_value` and `quote_smart` are
  uninterpreted functions, so their character sets and their round trips are
  not modelled. They live in modules that are not part of this model.
- Path resolution, client-path normalisation and filesystem-encoding
  re-encoding are not modelled. Each is a foreign call, abstracted as a
  per-frame client path, a debugger-file flag and a path-fault flag.
- `make_list_threads_message`, `make_thread_created_message`,
  `_thread_to_xml` and `make_custom_frame_created_message` are left out.
  Thread enumeration and liveness are runtime introspection outside this
  model.
- `make_thread_suspend_single_notification` and
  `make_thread_resume_single_notification` are left out, because they need a
  JSON serialiser.
- These builders carry fixed or scalar payloads and are not modelled:
  - `make_protocol_set_message`, `make_process_created_message`,
    `make_show_cython_warning_message`;
  - `make_version_message`, `make_thread_killed_message`,
    `make_send_curr_exception_trace_proceeded_message`;
  - `make_input_requested_message`, `make_exit_message`,
    `make_load_source_message`.

  `make_load_source_message` also hands its command to the writer.
- `make_show_console_message` is left out. It is a suspend composite with a
  different stop reason, already covered by `Suspend.MakeThreadSuspendStr`.
- Side effects with no payload logic are left out:
  - stderr logging in `make_error_message`;
  - `traceback.print_exc` in the renderer;
  - the writer hand-off.
- The diagnostic text of a caught exception is not computed. It is the
  collaborator `tracebackText`.
- Python frame identity (`id(frame)`) is an opaque per-frame `nat`, and the
  override map is keyed by it. Reference clearing (`frame = None`) has no
  counterpart.
- Tracebacks are finite sequences. A cyclic `tb_next` chain, on which the
  last-link loop would not terminate, cannot be expressed.
- Protocol.Guard: only the faults named above are modelled. The model's
  escapers (`make_valid_xml_value`, `quote_smart`) never raise, and neither
  does a malformed `arg` tuple or an unconvertible argument. In the code such
  a failure inside a builder's `try` would become an error command, with two
  exceptions:
  - inside the renderer's loop, the bare `except` swallows it and the text
    built so far is returned; an escaper raising on the file attribute leaves
    a half-written `<frame id="…" name="…" ` element at the end;
  - `make_variable_changed_message` has no catch-all, so the failure would
    reach its caller.

  The pass-through, I/O, thread-run and set-next-statement builders
  therefore never take their error path here.
- CommandFactory.MakeSetNextStmntStatusMessage: `int(seq)` is taken as
  already an integer. Its conversion failure, which would give an error
  command with sequence number 0, is not modelled.
- CommandFactory.MakeIoMessage: the command id is modelled as
  `CMD_WRITE_TO_CONSOLE`, although the code passes it as `str(...)`. The
  conversion of that id is `NetCommand`'s business, and `NetCommand` is not
  part of this model.
- CommandFactory.MakeIoMessage: the value 1000 is taken for
  `MAX_IO_MSG_SIZE`. That constant is defined in `pydevd_comm_constants`,
  which is not part of this model; `Truncate` itself works for any limit.
- Suspend.SuspendAttrs: `stop_reason` is formatted with `%s`, so the code
  accepts any value. It is modelled as the integer command ids the callers
  pass.
- The thread id is taken as already-formatted text. The exception type and
  description are taken as their `str()` forms.
