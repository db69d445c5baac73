/** The per-frame GPU command logger: the log of the current frame's
    commands, the GTE trace that goes with it, the VRAM snapshot taken when
    a frame starts, replay of the log, and the coverage it draws into the
    read/write heatmaps and highlight buffers. */
module GpuLogging {
  import opened Wrappers
  import opened MachineInts
  import opened GteTrace
  import opened GpuCommands
  import opened Rasterizer
  import opened VertexBatching
  import opened TraceSerializer

  /** `c_maxLoggedWords`: how many words of a command are kept. */
  const MaxLoggedWords: nat := 1024

  // ---------------------------------------------------------------------
  // The frame rollover

  /** Every command of the log carries the frame id of the first one. */
  predicate SameFrame(list: seq<Logged>) {
    forall i :: 0 <= i < |list| ==> list[i].frame == list[0].frame
  }

  /** The deletion loop of `addNodeInternal`: commands are taken off the
      front of the log while the front one belongs to another frame. What
      is left is empty or starts in `frame`. */
  function DropStale(list: seq<Logged>, frame: nat): (r: seq<Logged>)
    ensures |r| <= |list|
    ensures r == [] || r[0].frame == frame
  {
    if list != [] && list[0].frame != frame then DropStale(list[1..], frame) else list
  }

  /** What is left is a suffix of the log: the commands kept are not
      reordered or altered. */
  lemma {:induction false} DropStaleSuffix(list: seq<Logged>, frame: nat)
    ensures DropStale(list, frame) == list[|list| - |DropStale(list, frame)|..]
  {
    if list != [] && list[0].frame != frame {
      DropStaleSuffix(list[1..], frame);
      assert list[1..][|list| - 1 - |DropStale(list, frame)|..] == list[|list| - |DropStale(list, frame)|..];
    }
  }

  /** Every command taken off belonged to another frame. */
  lemma {:induction false} DropStaleRemoved(list: seq<Logged>, frame: nat, i: nat)
    requires i < |list| - |DropStale(list, frame)|
    ensures list[i].frame != frame
  {
    if i > 0 {
      DropStaleRemoved(list[1..], frame, i - 1);
    }
  }

  /** On a log whose commands share one frame, the loop removes all of them
      when that frame is not the current one, and none otherwise. */
  lemma {:induction false} DropStaleAllOrNothing(list: seq<Logged>, frame: nat)
    requires SameFrame(list)
    ensures list != [] && list[0].frame != frame ==> DropStale(list, frame) == []
    ensures (list == [] || list[0].frame == frame) ==> DropStale(list, frame) == list
  {
    if list != [] && list[0].frame != frame {
      var rest := list[1..];
      assert SameFrame(rest) by {
        forall i | 0 <= i < |rest| ensures rest[i].frame == rest[0].frame {
          assert rest[i] == list[i + 1];
        }
      }
      assert rest != [] ==> rest[0].frame == list[0].frame by {
        if rest != [] { assert rest[0] == list[1]; }
      }
      DropStaleAllOrNothing(rest, frame);
    }
  }

  // ---------------------------------------------------------------------
  // Admitting a command

  /** The words a command keeps: an empty payload becomes the single word
      `value`, and at most the first 1024 words are kept. */
  function LoggedWords(words: seq<u32>, value: u32): (r: seq<u32>)
    ensures 0 < |r| <= MaxLoggedWords
    ensures words == [] ==> r == [value]
    ensures words != [] ==> |r| == Min(|words|, MaxLoggedWords) && r == words[..|r|]
  {
    var kept := if words == [] then [value] else words;
    if |kept| > MaxLoggedWords then kept[..MaxLoggedWords] else kept
  }

  /** The command as `addNodeInternal` appends it: origin, length and source
      address from the call, the words kept, the truncation flag, the GTE
      state, pc and frame; geometry and the enabled and highlight flags are
      the command's own. */
  function AdmittedNode(node: Logged, origin: Origin, value: u32, length: u32, pc: u32, frame: nat,
                        gteState: Option<GteState>): (r: Logged)
    ensures r.geometry == node.geometry && r.enabled == node.enabled && r.highlight == node.highlight
    ensures r.origin == origin && r.length == length && r.sourceAddr == value
    ensures r.words == LoggedWords(node.words, value)
    ensures r.wordsTruncated <==> |node.words| > MaxLoggedWords
    ensures r.gteState == gteState && r.pc == pc && r.frame == frame
  {
    Logged(node.geometry, origin, length, value, LoggedWords(node.words, value), |node.words| > MaxLoggedWords,
           pc, frame, node.enabled, node.highlight, gteState)
  }

  /** With more than 1024 words the kept words are exactly the first 1024
      and the command is marked truncated; otherwise nothing is cut. */
  lemma {:induction false} TruncationExact(words: seq<u32>, value: u32)
    ensures |words| > MaxLoggedWords ==> LoggedWords(words, value) == words[..MaxLoggedWords]
    ensures 0 < |words| <= MaxLoggedWords ==> LoggedWords(words, value) == words
  {
  }

  // ---------------------------------------------------------------------
  // GTE trace

  /** The state `recordGteState` stores: the traced state, with the pending
      fetches as its metadata when fetch logging is on and some are pending. */
  function StoredGteState(state: GteState, pending: seq<GteFetchContext>, logVertexFetches: bool): (r: GteState)
    ensures r.command == state.command && r.pc == state.pc && r.input == state.input && r.output == state.output
    ensures logVertexFetches && pending != [] ==> r.metadata.vertexFetches == pending
    ensures !(logVertexFetches && pending != []) ==> r == state
  {
    if logVertexFetches && pending != [] then state.(metadata := GteLogMetadata(pending)) else state
  }

  // ---------------------------------------------------------------------
  // Replay

  /** The calls the logger makes on the GPU it replays into. */
  datatype GpuCall =
    | PartialUpdateVram(x: nat, y: nat, w: nat, h: nat, pixels: seq<u16>)
    | Execute(node: Logged)
    | VBlank(flag: bool)

  /** One `execute` per enabled command, in log order. */
  function Executions(list: seq<Logged>): (r: seq<GpuCall>)
    ensures |r| <= |list|
  {
    if list == [] then []
    else Executions(list[..|list| - 1]) + (if list[|list| - 1].enabled then [Execute(list[|list| - 1])] else [])
  }

  /** Only enabled commands of the log are executed. */
  lemma {:induction false} ExecutionsSound(list: seq<Logged>, k: nat)
    requires k < |Executions(list)|
    ensures var e := Executions(list)[k]; e.Execute? && e.node in list && e.node.enabled
  {
    var init := list[..|list| - 1];
    if k < |Executions(init)| {
      ExecutionsSound(init, k);
      var n := Executions(init)[k].node;
      var j :| 0 <= j < |init| && init[j] == n;
      assert list[j] == n;
    }
  }

  /** Every enabled command of the log is executed. */
  lemma {:induction false} ExecutionsComplete(list: seq<Logged>, n: Logged)
    requires n in list && n.enabled
    ensures Execute(n) in Executions(list)
  {
    var init := list[..|list| - 1];
    if n == list[|list| - 1] {
      assert Executions(list)[|Executions(list)| - 1] == Execute(n);
    } else {
      assert n in init by {
        var k :| 0 <= k < |list| && list[k] == n;
        assert k < |list| - 1 && init[k] == n;
      }
      ExecutionsComplete(init, n);
      var e := Executions(init);
      var j :| 0 <= j < |e| && e[j] == Execute(n);
      assert Executions(list)[j] == Execute(n);
    }
  }

  /** The positions of the enabled commands of the log, in increasing order. */
  function EnabledIndices(list: seq<Logged>): (r: seq<nat>)
    ensures |r| <= |list|
  {
    if list == [] then []
    else EnabledIndices(list[..|list| - 1]) + (if list[|list| - 1].enabled then [|list| - 1] else [])
  }

  /** The executions are exactly the enabled commands of the log, each once
      and in log order: the k-th execution is of the k-th enabled command. */
  lemma {:induction false} ExecutionsInOrder(list: seq<Logged>)
    ensures var idx := EnabledIndices(list);
      && |Executions(list)| == |idx|
      && (forall k :: 0 <= k < |idx| ==>
            idx[k] < |list| && list[idx[k]].enabled && Executions(list)[k] == Execute(list[idx[k]]))
      && (forall k, l :: 0 <= k < l < |idx| ==> idx[k] < idx[l])
      && (forall i :: 0 <= i < |list| && list[i].enabled ==> i in idx)
  {
    if list != [] {
      var init := list[..|list| - 1];
      ExecutionsInOrder(init);
      var idx0 := EnabledIndices(init);
      forall k | 0 <= k < |idx0|
        ensures list[idx0[k]] == init[idx0[k]]
      {
      }
      forall i | 0 <= i < |list| - 1
        ensures list[i] == init[i]
      {
      }
    }
  }

  /** The sequence `replay` issues: the VRAM snapshot uploaded over the whole
      1024x512 VRAM when one is held, the enabled commands in order, then
      one `vblank(true)`. */
  function ReplayScript(vram: Option<seq<u16>>, list: seq<Logged>): (r: seq<GpuCall>)
  {
    (if vram.Some? then [PartialUpdateVram(0, 0, 1024, 512, vram.value)] else [])
    + Executions(list) + [VBlank(true)]
  }

  /** The shape of a replay: an upload first iff a snapshot is held, a single
      `vblank(true)` and only at the end, and between them only executions
      of enabled commands of the log. */
  lemma {:induction false} ReplayShape(vram: Option<seq<u16>>, list: seq<Logged>)
    ensures var r := ReplayScript(vram, list);
      && |r| == (if vram.Some? then 1 else 0) + |Executions(list)| + 1
      && r[|r| - 1] == VBlank(true)
      && (r[0].PartialUpdateVram? <==> vram.Some?)
      && (vram.Some? ==> r[0] == PartialUpdateVram(0, 0, 1024, 512, vram.value))
      && forall k :: (if vram.Some? then 1 else 0) <= k < |r| - 1 ==>
           r[k].Execute? && r[k].node in list && r[k].node.enabled
  {
    var r := ReplayScript(vram, list);
    var pre: seq<GpuCall> := if vram.Some? then [PartialUpdateVram(0, 0, 1024, 512, vram.value)] else [];
    var e := Executions(list);
    assert r == pre + e + [VBlank(true)];
    forall k | |pre| <= k < |r| - 1
      ensures r[k].Execute? && r[k].node in list && r[k].node.enabled
    {
      assert r[k] == e[k - |pre|];
      ExecutionsSound(list, k - |pre|);
    }
    if vram.None? && e != [] {
      assert r[0] == e[0];
      ExecutionsSound(list, 0);
    }
  }

  // ---------------------------------------------------------------------
  // Highlight coverage

  /** One more command of the log considered for highlighting: its
      coverage is added iff it is highlighted. */
  lemma {:induction false} SelectionStep(list: seq<Logged>, i: nat, op: PixelOp)
    requires i < |list|
    ensures TriVertices(CoverageOf(Highlighted(list[..i + 1]), op))
         == TriVertices(CoverageOf(Highlighted(list[..i]), op))
            + (if list[i].highlight then TriVertices(GetVertices(list[i].geometry, op)) else [])
  {
    var x := list[i];
    var h := Highlighted(list[..i]);
    var tail: seq<Logged> := if x.highlight then [x] else [];
    assert list[..i + 1] == list[..i] + [x];
    HighlightedAppend(list[..i], [x]);
    assert Highlighted([x]) == tail by {
      assert [x][1..] == [];
    }
    CoverageOfAppend(h, tail, op);
    if x.highlight {
      assert [x][1..] == [];
      assert CoverageOf(tail, op) == GetVertices(x.geometry, op) + [];
    }
    TriVerticesAppend(CoverageOf(h, op), CoverageOf(tail, op));
  }

  /** A highlight pass submits the given node's coverage, then, unless
      `only`, the highlighted commands' coverage. */
  lemma {:induction false} SelectionCoverage(node: Option<Logged>, only: bool, list: seq<Logged>, op: PixelOp)
    ensures TriVertices(CoverageOf(HighlightSelection(node, only, list), op))
         == (if node.Some? then TriVertices(GetVertices(node.value.geometry, op)) else [])
            + (if only then [] else TriVertices(CoverageOf(Highlighted(list), op)))
  {
    var first: seq<Logged> := if node.Some? then [node.value] else [];
    var rest: seq<Logged> := if only then [] else Highlighted(list);
    var firstCover := if node.Some? then GetVertices(node.value.geometry, op) else [];
    var restCover := if only then [] else CoverageOf(Highlighted(list), op);
    assert HighlightSelection(node, only, list) == first + rest;
    assert CoverageOf(first, op) == firstCover by {
      if node.Some? {
        assert [node.value][1..] == [];
        assert CoverageOf(first, op) == GetVertices(node.value.geometry, op) + [];
      }
    }
    assert CoverageOf(rest, op) == restCover;
    CoverageOfAppend(first, rest, op);
    TriVerticesAppend(firstCover, restCover);
  }

  // ---------------------------------------------------------------------
  // The logger

  class Logger {
    /** `m_list`: the commands of the current frame, in arrival order. */
    var list: seq<Logged>
    /** `m_frameCounter`: bumped on every vertical sync. */
    var frameCounter: nat
    /** `m_lastGteFrame`: the frame the GTE trace belongs to. */
    var lastGteFrame: nat
    /** `m_gteFrameLog`: the traced GTE states of that frame. */
    var gteFrameLog: seq<GteState>
    /** `m_lastGteState`: the state attached to the next command. */
    var lastGteState: Option<GteState>
    /** `m_pendingFetches`: vertex loads not yet attributed to a state. */
    var pendingFetches: seq<GteFetchContext>
    /** `m_vram`: the VRAM snapshot taken when the frame started, if any. */
    var vram: Option<seq<u16>>
    var enabled: bool
    var logGteStates: bool
    var logVertexFetches: bool
    var breakOnVSync: bool
    /** `m_hasFramebuffers`: whether coverage is drawn at all. */
    var hasFramebuffers: bool
    /** `m_vertices` and `m_verticesCount`, with `addTri` and `flush`, and
        the GL draw state they draw through: the bound draw framebuffer and
        what each framebuffer has received. */
    const batcher: VertexBatcher

    /** The log holds one frame's commands, each with 1 to 1024 words. */
    ghost predicate Valid()
      reads this`list
    {
      && SameFrame(list)
      && (forall i :: 0 <= i < |list| ==> 0 < |list[i].words| <= MaxLoggedWords)
    }

    /** The vertex buffer is empty between operations, everything submitted
        to it having been drawn. */
    ghost predicate BatcherIdle()
      reads batcher, batcher.vertices
    {
      batcher.Valid() && batcher.count == 0 && Concat(batcher.drawn) == batcher.submitted
    }

    /** An empty logger with every flag off and a vertex buffer of `capacity`. */
    constructor(capacity: nat)
      requires capacity > 3
      ensures Valid() && BatcherIdle() && fresh(batcher) && fresh(batcher.vertices)
      ensures list == [] && frameCounter == 0 && lastGteFrame == 0 && gteFrameLog == []
      ensures lastGteState == None && pendingFetches == [] && vram == None
      ensures !enabled && !logGteStates && !logVertexFetches && !breakOnVSync && !hasFramebuffers
    {
      list := [];
      frameCounter := 0;
      lastGteFrame := 0;
      gteFrameLog := [];
      lastGteState := None;
      pendingFetches := [];
      vram := None;
      enabled := false;
      logGteStates := false;
      logVertexFetches := false;
      breakOnVSync := false;
      hasFramebuffers := false;
      batcher := new VertexBatcher(capacity);
    }

    /** The VSync listener: the frame counter moves on; the result says
        whether the emulator is to be paused. */
    method OnVSync() returns (pause: bool)
      modifies this`frameCounter
      ensures frameCounter == old(frameCounter) + 1 && pause == breakOnVSync
    {
      frameCounter := frameCounter + 1;
      pause := breakOnVSync;
    }

    /** `handleFrameChange()`: on the first GTE event of a new frame the
        trace, the last state and the pending fetches are dropped and the
        trace moves to the current frame. */
    method HandleFrameChange()
      modifies this`lastGteFrame, this`gteFrameLog, this`lastGteState, this`pendingFetches
      ensures lastGteFrame == frameCounter
      ensures old(lastGteFrame) != frameCounter ==>
        gteFrameLog == [] && lastGteState == None && pendingFetches == []
      ensures old(lastGteFrame) == frameCounter ==>
        gteFrameLog == old(gteFrameLog) && lastGteState == old(lastGteState) && pendingFetches == old(pendingFetches)
    {
      if lastGteFrame != frameCounter {
        lastGteFrame := frameCounter;
        gteFrameLog := [];
        lastGteState := None;
        pendingFetches := [];
      }
    }

    /** `clearFrameLog()`: the log and the whole GTE trace go, and the trace
        moves to the current frame. */
    method ClearFrameLog()
      modifies this`list, this`lastGteFrame, this`gteFrameLog, this`lastGteState, this`pendingFetches
      ensures Valid() && list == [] && gteFrameLog == [] && lastGteState == None && pendingFetches == []
      ensures lastGteFrame == frameCounter
    {
      list := [];
      gteFrameLog := [];
      lastGteState := None;
      lastGteFrame := frameCounter;
      pendingFetches := [];
    }

    /** `startNewFrame()`: the VRAM snapshot is retaken (`capture` is what
        the GPU hands over) and the GTE trace restarts in the current frame. */
    method StartNewFrame(capture: Option<seq<u16>>)
      modifies this`vram, this`lastGteFrame, this`gteFrameLog, this`lastGteState, this`pendingFetches
      ensures vram == capture
      ensures gteFrameLog == [] && lastGteState == None && pendingFetches == [] && lastGteFrame == frameCounter
    {
      vram := capture;
      gteFrameLog := [];
      lastGteState := None;
      lastGteFrame := frameCounter;
      pendingFetches := [];
    }

    /** `recordGteState(state)`: ignored when all three flags are off.
        Otherwise, after the frame check, the state (with the pending fetches
        attached when fetch logging is on and some are pending) becomes the
        last state, the pending fetches are cleared, and the state is
        appended to the trace when either log flag is on. */
    method RecordGteState(state: GteState)
      modifies this`lastGteFrame, this`gteFrameLog, this`lastGteState, this`pendingFetches
      ensures !enabled && !logGteStates && !logVertexFetches ==>
        lastGteFrame == old(lastGteFrame) && gteFrameLog == old(gteFrameLog)
        && lastGteState == old(lastGteState) && pendingFetches == old(pendingFetches)
      ensures enabled || logGteStates || logVertexFetches ==>
        var newFrame := old(lastGteFrame) != frameCounter;
        var pending := if newFrame then [] else old(pendingFetches);
        var stored := StoredGteState(state, pending, logVertexFetches);
        && lastGteFrame == frameCounter && pendingFetches == [] && lastGteState == Some(stored)
        && gteFrameLog == (if newFrame then [] else old(gteFrameLog))
                          + (if logGteStates || logVertexFetches then [stored] else [])
    {
      if !enabled && !logGteStates && !logVertexFetches {
        return;
      }
      HandleFrameChange();
      var loggedState := state;
      if logVertexFetches && pendingFetches != [] {
        loggedState := loggedState.(metadata := GteLogMetadata(pendingFetches));
      }
      pendingFetches := [];
      lastGteState := Some(loggedState);
      if logGteStates || logVertexFetches {
        gteFrameLog := gteFrameLog + [loggedState];
      }
    }

    /** `recordVertexFetch(fetch)`: with fetch logging on, and after the
        frame check, the fetch joins the pending ones; otherwise nothing. */
    method RecordVertexFetch(fetch: GteFetchContext)
      modifies this`lastGteFrame, this`gteFrameLog, this`lastGteState, this`pendingFetches
      ensures !logVertexFetches ==>
        lastGteFrame == old(lastGteFrame) && gteFrameLog == old(gteFrameLog)
        && lastGteState == old(lastGteState) && pendingFetches == old(pendingFetches)
      ensures logVertexFetches ==>
        var newFrame := old(lastGteFrame) != frameCounter;
        && lastGteFrame == frameCounter
        && pendingFetches == (if newFrame then [] else old(pendingFetches)) + [fetch]
        && gteFrameLog == (if newFrame then [] else old(gteFrameLog))
        && lastGteState == (if newFrame then None else old(lastGteState))
    {
      if !logVertexFetches {
        return;
      }
      HandleFrameChange();
      pendingFetches := pendingFetches + [fetch];
    }

    /** The deletion loop of `addNodeInternal`; the result says whether
        anything was deleted. Since the log holds one frame, either all of
        it goes or none. */
    method DropStaleNodes() returns (gotNewFrame: bool)
      requires Valid()
      modifies this`list
      ensures Valid() && list == DropStale(old(list), frameCounter)
      ensures gotNewFrame <==> |list| < |old(list)|
      ensures gotNewFrame ==> list == []
      ensures !gotNewFrame ==> list == old(list)
    {
      var rest;
      rest, gotNewFrame := DeleteStale(list, frameCounter);
      DropStaleAllOrNothing(list, frameCounter);
      assert rest == [] || rest == list;
      list := rest;
    }

    /** The loop itself: front commands are deleted while they belong to
        another frame. */
    static method DeleteStale(list: seq<Logged>, frame: nat) returns (rest: seq<Logged>, gotNewFrame: bool)
      ensures rest == DropStale(list, frame)
      ensures gotNewFrame <==> |rest| < |list|
    {
      rest := list;
      gotNewFrame := false;
      while rest != [] && rest[0].frame != frame
        invariant |rest| <= |list| && DropStale(rest, frame) == DropStale(list, frame)
        invariant gotNewFrame <==> |rest| < |list|
        decreases |rest|
      {
        rest := rest[1..];
        gotNewFrame := true;
      }
    }

    /** What the non-GL half of `addNodeInternal` does to the log and the
        GTE trace: the stale commands are gone and the admitted command is
        last; if any command was deleted, a new frame was started (VRAM
        retaken from `capture`, GTE trace restarted), otherwise the VRAM
        snapshot and the GTE trace are untouched. The command gets the frame
        counter and the last GTE state as they stand after that. */
    twostate predicate NodeLogged(node: Logged, origin: Origin, value: u32, length: u32, pc: u32,
                                  capture: Option<seq<u16>>)
      reads this
    {
      var kept := DropStale(old(list), frameCounter);
      var removed := |kept| < |old(list)|;
      && list == kept + [AdmittedNode(node, origin, value, length, pc, frameCounter,
                                      if removed then None else old(lastGteState))]
      && (removed ==> vram == capture && gteFrameLog == [] && lastGteState == None
                      && pendingFetches == [] && lastGteFrame == frameCounter)
      && (!removed ==> vram == old(vram) && gteFrameLog == old(gteFrameLog) && lastGteState == old(lastGteState)
                       && pendingFetches == old(pendingFetches) && lastGteFrame == old(lastGteFrame))
    }

    /** The non-GL half of `addNodeInternal`, then the coverage: stale
        commands are deleted (and a new frame started iff any were), the
        command is admitted and appended, and, with framebuffers, the write
        heatmap is bound and the write coverage drawn and flushed into it,
        then the same for the read heatmap, and the previous draw
        framebuffer is bound again. `pc` is the CPU's program counter and
        `capture` the VRAM the GPU would hand over. */
    method AddNode(node: Logged, origin: Origin, value: u32, length: u32, pc: u32, capture: Option<seq<u16>>)
      requires Valid() && BatcherIdle()
      modifies this`list, this`vram, this`lastGteFrame, this`gteFrameLog, this`lastGteState, this`pendingFetches
      modifies batcher, batcher.vertices
      ensures Valid() && BatcherIdle() && NodeLogged(node, origin, value, length, pc, capture)
      ensures batcher.target == old(batcher.target)
      ensures hasFramebuffers ==>
        && batcher.canvas == old(batcher.canvas).(
             writtenHeatmap := old(batcher.canvas.writtenHeatmap) + TriVertices(GetVertices(node.geometry, Write)),
             readHeatmap := old(batcher.canvas.readHeatmap) + TriVertices(GetVertices(node.geometry, Read)))
        && batcher.submitted == old(batcher.submitted) + TriVertices(GetVertices(node.geometry, Write))
                                + TriVertices(GetVertices(node.geometry, Read))
      ensures !hasFramebuffers ==> batcher.canvas == old(batcher.canvas) && batcher.submitted == old(batcher.submitted)
    {
      LogNode(node, origin, value, length, pc, capture);
      if !hasFramebuffers {
        return;
      }
      ghost var previous := batcher.target;
      batcher.Bind(WrittenHeatmapFB);
      DrawCoverage(GetVertices(node.geometry, Write));
      batcher.Bind(ReadHeatmapFB);
      DrawCoverage(GetVertices(node.geometry, Read));
      batcher.Bind(previous);
    }

    /** Lines 265-288 of `addNodeInternal`: the frame rollover, the node
        updates and the append. */
    method LogNode(node: Logged, origin: Origin, value: u32, length: u32, pc: u32, capture: Option<seq<u16>>)
      requires Valid()
      modifies this`list, this`vram, this`lastGteFrame, this`gteFrameLog, this`lastGteState, this`pendingFetches
      ensures Valid() && NodeLogged(node, origin, value, length, pc, capture)
    {
      var frame := frameCounter;
      var gotNewFrame := Rollover(capture);
      var admitted := Admit(node, origin, value, length, pc, frame, lastGteState);
      AppendNode(admitted);
    }

    /** The frame rollover of `addNodeInternal`: the commands of other
        frames are deleted, and if any were, a new frame is started. */
    method Rollover(capture: Option<seq<u16>>) returns (gotNewFrame: bool)
      requires Valid()
      modifies this`list, this`vram, this`lastGteFrame, this`gteFrameLog, this`lastGteState, this`pendingFetches
      ensures Valid() && list == DropStale(old(list), frameCounter)
      ensures gotNewFrame <==> |list| < |old(list)|
      ensures gotNewFrame ==> vram == capture && gteFrameLog == [] && lastGteState == None
                              && pendingFetches == [] && lastGteFrame == frameCounter
      ensures !gotNewFrame ==> vram == old(vram) && gteFrameLog == old(gteFrameLog) && lastGteState == old(lastGteState)
                               && pendingFetches == old(pendingFetches) && lastGteFrame == old(lastGteFrame)
    {
      gotNewFrame := DropStaleNodes();
      if gotNewFrame {
        StartNewFrame(capture);
      }
    }

    /** The node updates of `addNodeInternal`, one member at a time. */
    static method Admit(node: Logged, origin: Origin, value: u32, length: u32, pc: u32, frame: nat,
                        gteState: Option<GteState>) returns (n: Logged)
      ensures n == AdmittedNode(node, origin, value, length, pc, frame, gteState)
    {
      n := node.(origin := origin, length := length, sourceAddr := value);
      if n.words == [] {
        n := n.(words := [value]);
      }
      n := n.(wordsTruncated := false);
      if |n.words| > MaxLoggedWords {
        n := n.(words := n.words[..MaxLoggedWords], wordsTruncated := true);
      }
      n := n.(gteState := gteState, pc := pc, frame := frame);
    }

    /** `m_list.push_back(node)` for a command of the current frame. */
    method AppendNode(n: Logged)
      requires Valid() && (list == [] || list[0].frame == n.frame) && 0 < |n.words| <= MaxLoggedWords
      modifies this`list
      ensures Valid() && list == old(list) + [n]
    {
      list := list + [n];
    }

    /** Hands the triangles to `addTri` and then flushes: the bound
        framebuffer, and no other, receives exactly their vertices. */
    method DrawCoverage(ts: seq<Triangle>)
      requires BatcherIdle()
      modifies batcher, batcher.vertices
      ensures BatcherIdle() && batcher.submitted == old(batcher.submitted) + TriVertices(ts)
      ensures batcher.target == old(batcher.target)
      ensures batcher.canvas == old(batcher.canvas).Put(batcher.target, old(batcher.On(batcher.target)) + TriVertices(ts))
    {
      assert batcher.Pending() == batcher.On(batcher.target);
      batcher.AddTriangles(ts);
      batcher.Flush();
    }

    /** `replay(gpu)`: the calls made on the GPU; the logger is left as it was. */
    method Replay() returns (calls: seq<GpuCall>)
      ensures calls == ReplayScript(vram, list)
    {
      calls := [];
      if vram.Some? {
        calls := calls + [PartialUpdateVram(0, 0, 1024, 512, vram.value)];
      }
      ghost var upload := calls;
      for i := 0 to |list|
        invariant calls == upload + Executions(list[..i])
      {
        assert list[..i + 1][..i] == list[..i];
        if list[i].enabled {
          calls := calls + [Execute(list[i])];
        }
      }
      assert list[..|list|] == list;
      calls := calls + [VBlank(true)];
    }

    /** `highlight(node, only)`: with framebuffers, each highlight buffer in
        turn is bound, cleared and drawn with the selection's coverage,
        writes into one and reads into the other, and the previous draw
        framebuffer is bound again. */
    method Highlight(node: Option<Logged>, only: bool)
      requires BatcherIdle()
      modifies batcher, batcher.vertices
      ensures BatcherIdle() && batcher.target == old(batcher.target)
      ensures hasFramebuffers ==>
        var written := TriVertices(CoverageOf(HighlightSelection(node, only, list), Write));
        var read := TriVertices(CoverageOf(HighlightSelection(node, only, list), Read));
        && batcher.canvas == old(batcher.canvas).(writtenHighlight := written, readHighlight := read)
        && batcher.submitted == old(batcher.submitted) + written + read
      ensures !hasFramebuffers ==> batcher.canvas == old(batcher.canvas) && batcher.submitted == old(batcher.submitted)
    {
      if !hasFramebuffers {
        return;
      }
      ghost var previous := batcher.target;
      HighlightPass(WrittenHighlightFB, node, only, Write);
      HighlightPass(ReadHighlightFB, node, only, Read);
      batcher.Bind(previous);
    }

    /** One half of `highlight`: `fb` is bound and cleared, and then holds
        exactly the selection's coverage for `op`. */
    method HighlightPass(fb: Framebuffer, node: Option<Logged>, only: bool, op: PixelOp)
      requires BatcherIdle()
      modifies batcher, batcher.vertices
      ensures BatcherIdle() && batcher.target == fb
      ensures batcher.canvas == old(batcher.canvas).Put(fb, TriVertices(CoverageOf(HighlightSelection(node, only, list), op)))
      ensures batcher.submitted == old(batcher.submitted) + TriVertices(CoverageOf(HighlightSelection(node, only, list), op))
    {
      batcher.Bind(fb);
      batcher.ClearTarget();
      assert batcher.On(fb) == [];
      DrawSelection(node, only, op);
      assert [] + TriVertices(CoverageOf(HighlightSelection(node, only, list), op))
          == TriVertices(CoverageOf(HighlightSelection(node, only, list), op));
    }

    /** One highlight pass: the given node's coverage, then, unless `only`,
        that of every highlighted command of the log, then a flush. The
        bound framebuffer, and no other, receives exactly that coverage. */
    method DrawSelection(node: Option<Logged>, only: bool, op: PixelOp)
      requires BatcherIdle()
      modifies batcher, batcher.vertices
      ensures BatcherIdle() && batcher.target == old(batcher.target)
      ensures batcher.submitted == old(batcher.submitted) + TriVertices(CoverageOf(HighlightSelection(node, only, list), op))
      ensures batcher.canvas == old(batcher.canvas)
        .Put(batcher.target, old(batcher.On(batcher.target)) + TriVertices(CoverageOf(HighlightSelection(node, only, list), op)))
    {
      assert batcher.Pending() == batcher.On(batcher.target);
      AddSelection(node, only, op);
      batcher.Flush();
    }

    /** The `addTri` calls of a highlight pass, before its flush. */
    method AddSelection(node: Option<Logged>, only: bool, op: PixelOp)
      requires batcher.Valid()
      modifies batcher, batcher.vertices
      ensures batcher.Valid() && batcher.target == old(batcher.target)
      ensures batcher.canvas == old(batcher.canvas).Put(batcher.target, batcher.On(batcher.target))
      ensures batcher.submitted == old(batcher.submitted) + TriVertices(CoverageOf(HighlightSelection(node, only, list), op))
      ensures batcher.Pending() == old(batcher.Pending()) + TriVertices(CoverageOf(HighlightSelection(node, only, list), op))
    {
      ghost var start := batcher.submitted;
      ghost var pending := batcher.Pending();
      ghost var head := if node.Some? then TriVertices(GetVertices(node.value.geometry, op)) else [];
      ghost var tail := if only then [] else TriVertices(CoverageOf(Highlighted(list), op));
      ghost var c0 := batcher.canvas;
      ghost var t := batcher.target;
      SelectionCoverage(node, only, list, op);
      PutGet(c0, t);
      if node.Some? {
        batcher.AddTriangles(GetVertices(node.value.geometry, op));
      } else {
        assert start + head == start && pending + head == pending;
      }
      ghost var mid := batcher.Pending();
      ghost var midStart := batcher.submitted;
      ghost var on := batcher.On(t);
      if !only {
        AddHighlighted(op);
        PutPut(c0, t, on, batcher.On(t));
      } else {
        assert mid + tail == mid && midStart + tail == midStart;
      }
      AppendAssoc(start, head, tail);
      AppendAssoc(pending, head, tail);
    }

    /** The loop of a highlight pass: the coverage of every highlighted
        command of the log, in log order, is handed to `addTri`. Only the
        bound framebuffer is drawn into. */
    method AddHighlighted(op: PixelOp)
      requires batcher.Valid()
      modifies batcher, batcher.vertices
      ensures batcher.Valid() && batcher.target == old(batcher.target)
      ensures batcher.canvas == old(batcher.canvas).Put(batcher.target, batcher.On(batcher.target))
      ensures batcher.submitted == old(batcher.submitted) + TriVertices(CoverageOf(Highlighted(list), op))
      ensures batcher.Pending()
           == old(batcher.Pending()) + TriVertices(CoverageOf(Highlighted(list), op))
    {
      ghost var start := batcher.submitted;
      ghost var c0 := batcher.canvas;
      ghost var t := batcher.target;
      ghost var pending := batcher.Pending();
      assert list[..0] == [] && Highlighted([]) == [] && CoverageOf([], op) == [] && TriVertices([]) == [];
      assert pending + [] == pending && start + [] == start;
      PutGet(c0, t);
      for i := 0 to |list|
        invariant batcher.Valid() && batcher.target == t && batcher.canvas == c0.Put(t, batcher.On(t))
        invariant batcher.submitted == start + TriVertices(CoverageOf(Highlighted(list[..i]), op))
        invariant batcher.Pending() == pending + TriVertices(CoverageOf(Highlighted(list[..i]), op))
      {
        ghost var sofar := TriVertices(CoverageOf(Highlighted(list[..i]), op));
        ghost var step := if list[i].highlight then TriVertices(GetVertices(list[i].geometry, op)) else [];
        SelectionStep(list, i, op);
        AppendAssoc(start, sofar, step);
        AppendAssoc(pending, sofar, step);
        if list[i].highlight {
          ghost var on := batcher.On(t);
          batcher.AddTriangles(GetVertices(list[i].geometry, op));
          PutPut(c0, t, on, batcher.On(t));
        } else {
          assert sofar + step == sofar;
        }
      }
      assert list[..|list|] == list;
    }

    /** `saveFrameLog(path)` on the current log. */
    method SaveFrameLog(faults: StreamFaults) returns (ok: bool, written: seq<u8>)
      ensures !faults.binaryOpens ==> !ok && written == []
      ensures faults.binaryOpens && faults.failingWrite.Some? && faults.failingWrite.value <= |list| ==>
        !ok && written == RecordBytes(list[..faults.failingWrite.value])
      ensures faults.binaryOpens && !(faults.failingWrite.Some? && faults.failingWrite.value <= |list|) ==>
        written == FrameFile(list) && (ok <==> faults.textOpens && faults.textGood)
    {
      ok, written := TraceSerializer.SaveFrameLog(list, faults);
    }

    /** `disable()`: no more coverage, and the VRAM snapshot is released. */
    method Disable()
      modifies this`hasFramebuffers, this`vram
      ensures !hasFramebuffers && vram == None
    {
      hasFramebuffers := false;
      vram := None;
    }

    /** `enable()`: coverage is drawn from now on iff the GL resources could
        be set up (`glReady`); otherwise the flag keeps its value. */
    method Enable(glReady: bool)
      modifies this`hasFramebuffers
      ensures hasFramebuffers == (glReady || old(hasFramebuffers))
    {
      if glReady {
        hasFramebuffers := true;
      }
    }
  }
}
