/**
 * The frame-stack renderer (make_thread_stack_str): walk a frame chain through
 * f_back, skip the debugger's own frames, and render one <frame> element per
 * remaining frame, innermost first.
 */
module StackRender {
  import opened Protocol
  import opened Frames

  /** Line overrides: frame identity to the line to report for that frame. */
  type LineMap = map<nat, int>

  /** The data one rendered <frame> element carries. */
  datatype FrameElem = FrameElem(id: nat, name: string, path: string, line: int)

  /** A missing override map is treated as an empty one. */
  function LinesOf(overrides: Option<LineMap>): LineMap
  {
    if overrides.Some? then overrides.value else map[]
  }

  /**
   * The walk ends at this frame: it has no f_code, its code has no name, or
   * resolving its path raises (the exception is swallowed by the renderer).
   */
  predicate StopsWalk(f: Frame)
  {
    f.code.None? || f.code.value.name.None? || f.pathFault
  }

  /** The line reported for a frame: its override if it has one, else f_lineno. */
  function LineOf(f: Frame, lines: LineMap): int
  {
    if f.id in lines then lines[f.id] else f.lineno
  }

  function Elem(f: Frame, lines: LineMap): FrameElem
    requires !StopsWalk(f)
  {
    FrameElem(f.id, f.code.value.name.value, f.clientPath, LineOf(f, lines))
  }

  /** The elements the walk emits from index `from` of the chain onwards. */
  function WalkFrom(chain: seq<Frame>, lines: LineMap, from: nat): seq<FrameElem>
    requires from <= |chain|
    decreases |chain| - from
  {
    if from == |chain| || StopsWalk(chain[from]) then []
    else if chain[from].pydevFile then WalkFrom(chain, lines, from + 1)
    else [Elem(chain[from], lines)] + WalkFrom(chain, lines, from + 1)
  }

  function Walk(chain: seq<Frame>, lines: LineMap): seq<FrameElem>
  {
    WalkFrom(chain, lines, 0)
  }

  /** The wire text of one frame element, written in the renderer's three pieces. */
  function FrameHead(env: Env, e: FrameElem): string
  {
    "<frame id=\"" + IntText(e.id) + "\" name=\"" + env.validXml(e.name) + "\" "
  }

  function FrameTail(env: Env, e: FrameElem): string
  {
    "file=\"" + env.quote(env.validXml(e.path), "/>_= \t") + "\" line=\"" + IntText(e.line) + "\">"
  }

  function FrameXml(env: Env, e: FrameElem): string
  {
    FrameHead(env, e) + FrameTail(env, e) + "</frame>"
  }

  /** The concatenated wire text of a sequence of frame elements. */
  function StackXml(env: Env, elems: seq<FrameElem>): string
    decreases |elems|
  {
    if elems == [] then "" else FrameXml(env, elems[0]) + StackXml(env, elems[1..])
  }

  /** The stack fragment rendered for a chain and an optional override map. */
  function StackOf(env: Env, chain: seq<Frame>, overrides: Option<LineMap>): string
  {
    StackXml(env, Walk(chain, LinesOf(overrides)))
  }

  /**
   * make_thread_stack_str: the rendered fragment is the concatenation of one
   * element per frame the walk emits (see WalkEmitsVisibleFrames for which).
   */
  method MakeThreadStackStr(env: Env, chain: seq<Frame>, overrides: Option<LineMap>)
    returns (text: string)
    ensures text == StackXml(env, Walk(chain, LinesOf(overrides)))
  {
    var lines := LinesOf(overrides);
    ghost var total := StackXml(env, Walk(chain, lines));
    text := "";
    var i := 0;
    assert text + StackXml(env, WalkFrom(chain, lines, i)) == total;
    while i < |chain|
      invariant 0 <= i <= |chain|
      invariant text + StackXml(env, WalkFrom(chain, lines, i)) == total
      decreases |chain| - i
    {
      var f := chain[i];
      // A frame without f_code or without a code name ends the walk; so does a
      // frame whose path resolution raises, the renderer swallowing the
      // exception and returning what it has rendered so far.
      if f.code.None? || f.code.value.name.None? || f.pathFault {
        StepStop(env, chain, lines, i, text, total);
        return;
      }
      if !f.pydevFile {
        // id, code name, client path, and the override line or f_lineno
        var e := Elem(f, lines);
        StepEmit(env, chain, lines, i, text, total);
        text := text + FrameHead(env, e);
        text := text + FrameTail(env, e);
        text := text + "</frame>";
      } else {
        StepSkip(env, chain, lines, i, text, total);
      }
      i := i + 1;
    }
    StepStop(env, chain, lines, i, text, total);
  }

  /** A frame that stops the walk, or the end of the chain: the text is complete. */
  lemma StepStop(env: Env, chain: seq<Frame>, lines: LineMap, i: nat, text: string, total: string)
    requires i <= |chain| && (i < |chain| ==> StopsWalk(chain[i]))
    requires text + StackXml(env, WalkFrom(chain, lines, i)) == total
    ensures text == total
  {
    assert WalkFrom(chain, lines, i) == [];
    assert text + "" == text;
  }

  /** A debugger frame: skipped, and the walk goes on. */
  lemma StepSkip(env: Env, chain: seq<Frame>, lines: LineMap, i: nat, text: string, total: string)
    requires i < |chain| && !StopsWalk(chain[i]) && chain[i].pydevFile
    requires text + StackXml(env, WalkFrom(chain, lines, i)) == total
    ensures text + StackXml(env, WalkFrom(chain, lines, i + 1)) == total
  {
    assert WalkFrom(chain, lines, i) == WalkFrom(chain, lines, i + 1);
  }

  /** Any other frame: its element, in three pieces, moves from the walk still to do to the text. */
  lemma StepEmit(env: Env, chain: seq<Frame>, lines: LineMap, i: nat, text: string, total: string)
    requires i < |chain| && !StopsWalk(chain[i]) && !chain[i].pydevFile
    requires text + StackXml(env, WalkFrom(chain, lines, i)) == total
    ensures var e := Elem(chain[i], lines);
      text + FrameHead(env, e) + FrameTail(env, e) + "</frame>" + StackXml(env, WalkFrom(chain, lines, i + 1)) == total
  {
    var e := Elem(chain[i], lines);
    var rest := WalkFrom(chain, lines, i + 1);
    assert WalkFrom(chain, lines, i) == [e] + rest;
    assert ([e] + rest)[1..] == rest;
    var head, tail, restText := FrameHead(env, e), FrameTail(env, e), StackXml(env, rest);
    assert StackXml(env, [e] + rest) == head + tail + "</frame>" + restText;
    var close := "</frame>";
    ConcatAssoc(text, head + tail + close, restText);
    ConcatAssoc(text, head + tail, close);
    ConcatAssoc(text, head, tail);
  }

  /** The index at which the walk ends: the first frame that stops it, or the chain's length. */
  function StopFrom(chain: seq<Frame>, from: nat): (n: nat)
    requires from <= |chain|
    ensures from <= n <= |chain|
    ensures forall j :: from <= j < n ==> !StopsWalk(chain[j])
    ensures n < |chain| ==> StopsWalk(chain[n])
    decreases |chain| - from
  {
    if from == |chain| || StopsWalk(chain[from]) then from else StopFrom(chain, from + 1)
  }

  function StopIndex(chain: seq<Frame>): nat
  {
    StopFrom(chain, 0)
  }

  /** The renderer emits an element for frame i: the walk reaches it and it is not a debugger frame. */
  ghost predicate Emits(chain: seq<Frame>, i: nat)
  {
    i < StopIndex(chain) && !chain[i].pydevFile
  }

  /** The chain indices of the emitted frames, in emission order. */
  function EmitIndices(chain: seq<Frame>, from: nat): (idx: seq<nat>)
    requires from <= |chain|
    ensures forall k :: 0 <= k < |idx| ==> from <= idx[k] < |chain|
    decreases |chain| - from
  {
    if from == |chain| || StopsWalk(chain[from]) then []
    else if chain[from].pydevFile then EmitIndices(chain, from + 1)
    else [from] + EmitIndices(chain, from + 1)
  }

  lemma {:induction false} EmitIndicesWalk(chain: seq<Frame>, lines: LineMap, from: nat)
    requires from <= |chain|
    ensures var idx := EmitIndices(chain, from);
      && |idx| == |WalkFrom(chain, lines, from)|
      && forall k :: 0 <= k < |idx| ==>
           !StopsWalk(chain[idx[k]]) && WalkFrom(chain, lines, from)[k] == Elem(chain[idx[k]], lines)
    decreases |chain| - from
  {
    if from < |chain| && !StopsWalk(chain[from]) {
      EmitIndicesWalk(chain, lines, from + 1);
      if !chain[from].pydevFile {
        var idx, rest := EmitIndices(chain, from + 1), WalkFrom(chain, lines, from + 1);
        assert EmitIndices(chain, from) == [from] + idx;
        assert WalkFrom(chain, lines, from) == [Elem(chain[from], lines)] + rest;
      }
    }
  }

  lemma {:induction false} EmitIndicesReach(chain: seq<Frame>, from: nat)
    requires from <= |chain|
    ensures var idx := EmitIndices(chain, from);
      && (forall k :: 0 <= k < |idx| ==> from <= idx[k] < StopFrom(chain, from) && !chain[idx[k]].pydevFile)
      && (forall k, l :: 0 <= k < l < |idx| ==> idx[k] < idx[l])
      && (forall i :: from <= i < StopFrom(chain, from) && !chain[i].pydevFile ==> i in idx)
    decreases |chain| - from
  {
    if from < |chain| && !StopsWalk(chain[from]) {
      EmitIndicesReach(chain, from + 1);
      assert StopFrom(chain, from) == StopFrom(chain, from + 1);
      if !chain[from].pydevFile {
        var idx := EmitIndices(chain, from + 1);
        assert EmitIndices(chain, from) == [from] + idx;
        assert forall k :: 1 <= k < |idx| + 1 ==> ([from] + idx)[k] == idx[k - 1];
      }
    }
  }

  /**
   * The walk emits exactly one element per frame it reaches that is not a
   * debugger frame, in chain order (innermost first): element k renders the
   * frame at chain index idx[k], the indices strictly increase, and every
   * reached non-debugger frame has one. A skipped debugger frame does not end
   * the walk.
   */
  lemma WalkEmitsVisibleFrames(chain: seq<Frame>, lines: LineMap)
    ensures var idx := EmitIndices(chain, 0);
      && |idx| == |Walk(chain, lines)|
      && (forall k :: 0 <= k < |idx| ==> Emits(chain, idx[k]) && Walk(chain, lines)[k] == Elem(chain[idx[k]], lines))
      && (forall k, l :: 0 <= k < l < |idx| ==> idx[k] < idx[l])
      && (forall i :: Emits(chain, i) ==> i in idx)
  {
    EmitIndicesWalk(chain, lines, 0);
    EmitIndicesReach(chain, 0);
  }

  /**
   * Each emitted element carries its frame's identity, code name and client
   * path, and reports the override line for that frame when there is one,
   * otherwise the frame's own f_lineno.
   */
  lemma WalkLines(chain: seq<Frame>, lines: LineMap, k: nat)
    requires k < |EmitIndices(chain, 0)|
    ensures k < |Walk(chain, lines)|
    ensures var f := chain[EmitIndices(chain, 0)[k]];
      && Emits(chain, EmitIndices(chain, 0)[k])
      && Walk(chain, lines)[k].id == f.id
      && Walk(chain, lines)[k].name == f.code.value.name.value
      && Walk(chain, lines)[k].path == f.clientPath
      && (f.id in lines ==> Walk(chain, lines)[k].line == lines[f.id])
      && (f.id !in lines ==> Walk(chain, lines)[k].line == f.lineno)
  {
    WalkEmitsVisibleFrames(chain, lines);
  }

  /** The number of debugger frames in a sequence of frames. */
  function PydevCount(frames: seq<Frame>): nat
    decreases |frames|
  {
    if frames == [] then 0
    else (if frames[0].pydevFile then 1 else 0) + PydevCount(frames[1..])
  }

  lemma {:induction false} WalkCountFrom(chain: seq<Frame>, lines: LineMap, from: nat)
    requires from <= |chain|
    ensures |WalkFrom(chain, lines, from)| + PydevCount(chain[from..StopFrom(chain, from)])
            == StopFrom(chain, from) - from
    decreases |chain| - from
  {
    if from < |chain| && !StopsWalk(chain[from]) {
      WalkCountFrom(chain, lines, from + 1);
      var n := StopFrom(chain, from);
      assert chain[from..n][1..] == chain[from + 1..n];
    }
  }

  /**
   * Of the N frames the walk reaches, the K debugger frames are dropped and
   * the other N - K become elements.
   */
  lemma WalkCount(chain: seq<Frame>, lines: LineMap)
    ensures |Walk(chain, lines)| == StopIndex(chain) - PydevCount(chain[..StopIndex(chain)])
  {
    WalkCountFrom(chain, lines, 0);
    assert chain[0..StopIndex(chain)] == chain[..StopIndex(chain)];
  }

  lemma {:induction false} WalkPrefixFrom(chain: seq<Frame>, lines: LineMap, n: nat, from: nat)
    requires from <= n <= |chain|
    requires forall j :: from <= j < n ==> !StopsWalk(chain[j])
    requires n < |chain| ==> StopsWalk(chain[n])
    ensures WalkFrom(chain, lines, from) == WalkFrom(chain[..n], lines, from)
    decreases n - from
  {
    if from < n {
      WalkPrefixFrom(chain, lines, n, from + 1);
    }
  }

  /**
   * The walk ends at the first frame without f_code, without a code name, or
   * whose path resolution raises; the output is what the frames before it
   * produced, whatever follows in the chain.
   */
  lemma WalkStopsAt(chain: seq<Frame>, lines: LineMap, tail: seq<Frame>)
    requires StopIndex(chain) < |chain|
    ensures Walk(chain, lines) == Walk(chain[..StopIndex(chain)], lines)
    ensures Walk(chain, lines) == Walk(chain[..StopIndex(chain) + 1] + tail, lines)
  {
    var n := StopIndex(chain);
    WalkPrefixFrom(chain, lines, n, 0);
    var other := chain[..n + 1] + tail;
    assert other[..n] == chain[..n];
    assert forall j :: 0 <= j < n ==> other[j] == chain[j];
    WalkPrefixFrom(other, lines, n, 0);
  }

  /**
   * Frame identities are unique in the rendered stack when they are unique in
   * the chain.
   */
  lemma WalkIdsDistinct(chain: seq<Frame>, lines: LineMap)
    requires forall i, j :: 0 <= i < j < |chain| ==> chain[i].id != chain[j].id
    ensures var w := Walk(chain, lines);
      forall k, l :: 0 <= k < l < |w| ==> w[k].id != w[l].id
  {
    WalkEmitsVisibleFrames(chain, lines);
  }
}
