/**
 * The runtime call stack as this layer sees it, and the search for the
 * debugger's own suspension frame.
 *
 * A chain of frames is a sequence: element 0 is the frame handed in, element
 * i + 1 is element i's f_back, and the chain ends where f_back is None. The
 * empty chain stands for a None frame.
 */
module Frames {
  import opened Protocol

  /** f_code: the code name (co_name, None on some runtimes) and co_filename. */
  datatype Code = Code(name: Option<string>, filename: string)

  /**
   * One frame.
   *   id          -- id(frame), the frame's identity
   *   code        -- f_code, None on some runtimes
   *   pathFault   -- resolving the path raises, or, for a frame that is not a
   *                  debugger file, normalising or re-encoding it raises
   *   pydevFile   -- the file's basename is classified PYDEV_FILE (a debugger file)
   *   clientPath  -- the file path in the client's form, already re-encoded
   *   lineno      -- f_lineno
   *   storedStack -- f_locals.get('thread_stack_str')
   *   storedArg   -- f_locals.get('arg')
   */
  datatype Frame = Frame(
    id: nat,
    code: Option<Code>,
    pathFault: bool,
    pydevFile: bool,
    clientPath: string,
    lineno: int,
    storedStack: Option<string>,
    storedArg: Option<ExcArg>)

  /**
   * The exception arguments a suspended thread keeps: str(exc_type),
   * str(exc_desc) and the traceback. A traceback is the sequence of its links
   * in tb_next order, each given by the frame chain of its tb_frame; the empty
   * sequence stands for a None traceback.
   */
  datatype ExcArg = ExcArg(excType: string, excDesc: string, trace: seq<seq<Frame>>)

  /** The code name and file that identify the debugger's suspension frame. */
  const WaitFunction := "do_wait_suspend"
  const WaitFile := "pydevd.py"

  /** str.endswith */
  predicate EndsWith(s: string, suffix: string)
  {
    |suffix| <= |s| && s[|s| - |suffix|..] == suffix
  }

  /** The frame is the debugger's suspension frame. */
  predicate IsMarker(f: Frame)
    requires f.code.Some?
  {
    f.code.value.name == Some(WaitFunction) && EndsWith(f.code.value.filename, WaitFile)
  }

  /**
   * What a search stops at: any suspension frame, or, when `needArg` holds,
   * only a suspension frame whose `arg` local is set.
   */
  predicate Wanted(f: Frame, needArg: bool)
    requires f.code.Some?
  {
    IsMarker(f) && (needArg ==> f.storedArg.Some?)
  }

  /**
   * How a walk down the chain from the topmost frame ends: at a wanted frame,
   * by running off the end, or by raising at a frame without f_code (reading
   * f_code.co_name of None raises).
   */
  datatype Search = Found(at: nat) | Exhausted | Faulted(at: nat)

  function FindMarker(chain: seq<Frame>, needArg: bool, from: nat): (r: Search)
    requires from <= |chain|
    ensures r.Found? ==> from <= r.at < |chain| && chain[r.at].code.Some? && Wanted(chain[r.at], needArg)
    ensures r.Faulted? ==> from <= r.at < |chain| && chain[r.at].code.None?
    decreases |chain| - from
  {
    if from == |chain| then Exhausted
    else if chain[from].code.None? then Faulted(from)
    else if Wanted(chain[from], needArg) then Found(from)
    else FindMarker(chain, needArg, from + 1)
  }

  /** Every frame before index n has f_code and is not what the search looks for. */
  ghost predicate PassedOver(chain: seq<Frame>, needArg: bool, n: nat)
  {
    n <= |chain| &&
    forall j :: 0 <= j < n ==> chain[j].code.Some? && !Wanted(chain[j], needArg)
  }

  lemma {:induction false} FindMarkerFrom(chain: seq<Frame>, needArg: bool, from: nat, i: nat)
    requires from <= |chain|
    requires PassedOver(chain, needArg, from)
    ensures FindMarker(chain, needArg, from) == Found(i) <==>
              i < |chain| && PassedOver(chain, needArg, i) && chain[i].code.Some? && Wanted(chain[i], needArg)
    ensures FindMarker(chain, needArg, from) == Faulted(i) <==>
              i < |chain| && PassedOver(chain, needArg, i) && chain[i].code.None?
    ensures FindMarker(chain, needArg, from).Exhausted? <==> PassedOver(chain, needArg, |chain|)
    decreases |chain| - from
  {
    if from < |chain| && chain[from].code.Some? && !Wanted(chain[from], needArg) {
      FindMarkerFrom(chain, needArg, from + 1, i);
    }
  }

  /**
   * The search stops at the FIRST frame that either lacks f_code or is what it
   * looks for, and reports which; it reports exhaustion exactly when no frame
   * of the chain is either. A suspension frame without `arg` does not stop a
   * search that needs `arg`.
   */
  lemma FindMarkerSpec(chain: seq<Frame>, needArg: bool, i: nat)
    ensures FindMarker(chain, needArg, 0) == Found(i) <==>
              i < |chain| && PassedOver(chain, needArg, i) && chain[i].code.Some? && Wanted(chain[i], needArg)
    ensures FindMarker(chain, needArg, 0) == Faulted(i) <==>
              i < |chain| && PassedOver(chain, needArg, i) && chain[i].code.None?
    ensures FindMarker(chain, needArg, 0).Exhausted? <==> PassedOver(chain, needArg, |chain|)
  {
    FindMarkerFrom(chain, needArg, 0, i);
  }
}
