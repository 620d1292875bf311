/**
 * The Lottie animation controller: the pruning of the parsed node tree,
 * the frame clock that turns elapsed time into whole frames (looping or
 * clamping at the end of the animation), and the play, stop and rescale
 * commands. The GPU engine, the sprite packer and the parser are outside
 * the model: the parsed animation comes in as a value, and what the
 * engine is asked to do is recorded in fields.
 */
module LottieController {
  import opened Wrappers
  import opened JsRuntime
  import opened LottieConfig

  // ---------------------------------------------------------------------
  // The node tree and its pruning

  /** A parsed animation node: whether it draws a shape, and its children. */
  datatype Node = Node(id: nat, isShape: bool, children: seq<Node>)

  /** The test that keeps a node: it has children or it is a shape. */
  predicate Keep(n: Node) {
    |n.children| != 0 || n.isShape
  }

  /**
   * The tree after _cleanTree: at every level, childless nodes that are
   * not shapes are removed; the survivors keep their order and have their
   * children pruned in turn. The test looks at a node's children before
   * they are pruned.
   */
  function Pruned(nodes: seq<Node>): (r: seq<Node>)
    decreases nodes
  {
    if nodes == [] then [] else PruneOne(nodes[0]) + Pruned(nodes[1..])
  }

  /** What one node of a level becomes: nothing, or itself with its children pruned. */
  function PruneOne(n: Node): (r: seq<Node>)
    decreases n
  {
    if Keep(n) then [n.(children := Pruned(n.children))] else []
  }

  /** The nodes of one level that survive, unpruned, in order. */
  function Kept(nodes: seq<Node>): (r: seq<Node>)
    ensures |r| <= |nodes|
  {
    if nodes == [] then []
    else (if Keep(nodes[0]) then [nodes[0]] else []) + Kept(nodes[1..])
  }

  /** A node survives a level exactly when it is on that level and passes the test. */
  lemma {:induction false} KeptMembers(nodes: seq<Node>, x: Node)
    ensures x in Kept(nodes) <==> x in nodes && Keep(x)
  {
    if nodes != [] {
      KeptMembers(nodes[1..], x);
      assert nodes == [nodes[0]] + nodes[1..];
    }
  }

  lemma {:induction false} PrunedAppend(a: seq<Node>, b: seq<Node>)
    ensures Pruned(a + b) == Pruned(a) + Pruned(b)
    decreases a
  {
    if a == [] {
      assert a + b == b;
    } else {
      assert (a + b)[0] == a[0];
      assert (a + b)[1..] == a[1..] + b;
      PrunedAppend(a[1..], b);
    }
  }

  /** Pruning a longer prefix adds what the next node becomes. */
  lemma PrunedPrefix(nodes: seq<Node>, k: nat)
    requires k < |nodes|
    ensures Pruned(nodes[..k + 1]) == Pruned(nodes[..k]) + PruneOne(nodes[k])
  {
    assert nodes[..k + 1] == nodes[..k] + [nodes[k]];
    PrunedAppend(nodes[..k], [nodes[k]]);
    assert [nodes[k]][1..] == [];
  }

  /**
   * Pruning one level keeps exactly the nodes that pass the test, in
   * their order, each with its own children pruned.
   */
  lemma {:induction false} PrunedLevel(nodes: seq<Node>)
    ensures |Pruned(nodes)| == |Kept(nodes)|
    ensures forall i :: 0 <= i < |Kept(nodes)| ==>
      Pruned(nodes)[i] == Kept(nodes)[i].(children := Pruned(Kept(nodes)[i].children))
  {
    if nodes != [] {
      PrunedLevel(nodes[1..]);
    }
  }

  /** Shape nodes always survive, with or without children. */
  lemma ShapesSurvive(nodes: seq<Node>, n: Node)
    requires n in nodes && n.isShape
    ensures n in Kept(nodes)
  {
    KeptMembers(nodes, n);
  }

  /**
   * Pruning is not idempotent: a non-shape node whose only child is a
   * childless non-shape keeps its place, because it is examined before its
   * child is removed, and becomes removable only on a second pass.
   */
  lemma PrunedNotIdempotent()
    ensures var nodes := [Node(0, false, [Node(1, false, [])])];
      Pruned(nodes) == [Node(0, false, [])] && Pruned(Pruned(nodes)) == []
  {
    var leaf := Node(1, false, []);
    assert Pruned([leaf]) == [] by {
      assert [leaf][1..] == [];
    }
    var nodes := [Node(0, false, [leaf])];
    assert nodes[1..] == [];
    assert Pruned(nodes) == [Node(0, false, [])];
    var once := [Node(0, false, [])];
    assert once[1..] == [];
  }

  /** Splicing out the element after a prefix. */
  lemma SpliceOut(done: seq<Node>, x: Node, rest: seq<Node>)
    ensures var r := done + ([x] + rest);
      r[|done|] == x && r[..|done|] + r[|done| + 1..] == done + rest
  {
    var r := done + ([x] + rest);
    assert r[..|done|] == done;
    assert r[|done| + 1..] == rest;
  }

  /** Replacing the element after a prefix. */
  lemma ReplaceNext(done: seq<Node>, x: Node, y: Node, rest: seq<Node>)
    ensures (done + ([x] + rest))[|done| := y] == (done + [y]) + rest
  {
  }

  /**
   * _cleanTree: the index loop that splices a removed node out and looks
   * at the same index again, and recurses into the children of the nodes
   * it keeps.
   */
  method CleanTree(nodes: seq<Node>) returns (r: seq<Node>)
    ensures r == Pruned(nodes)
    decreases nodes
  {
    r := nodes;
    var i := 0;
    ghost var k := 0;
    ghost var done: seq<Node> := [];
    while i < |r|
      invariant 0 <= k <= |nodes| && i == |done|
      invariant done == Pruned(nodes[..k]) && r == done + nodes[k..]
      decreases |r| - i
    {
      assert nodes[k..] == [nodes[k]] + nodes[k + 1..];
      SpliceOut(done, nodes[k], nodes[k + 1..]);
      PrunedPrefix(nodes, k);
      var node := r[i];
      if |node.children| == 0 && !node.isShape {
        r := r[..i] + r[i + 1..];
      } else {
        var children := CleanTree(node.children);
        ReplaceNext(done, node, node.(children := children), nodes[k + 1..]);
        r := r[i := node.(children := children)];
        done := done + [node.(children := children)];
        i := i + 1;
      }
      k := k + 1;
    }
    assert nodes[..k] == nodes;
  }

  // ---------------------------------------------------------------------
  // The frame clock

  /** The parsed animation: its frame range, its frame rate, its size in pixels and its root nodes. */
  datatype AnimationInfo = AnimationInfo(startFrame: real, endFrame: real, frameRate: real,
                                         widthPx: real, heightPx: real, nodes: seq<Node>)

  /** JavaScript `x + y` with a finite right side: infinities and NaN absorb it. */
  function Plus(x: Double, y: real): Double {
    match x
    case Finite(v) => Finite(v + y)
    case _ => x
  }

  /** JavaScript `x < y` with a finite right side. */
  predicate LessThan(x: Double, y: real) {
    match x
    case Finite(v) => v < y
    case NegInf => true
    case _ => false
  }

  /** JavaScript `x > y` with a finite right side. */
  predicate GreaterThan(x: Double, y: real) {
    match x
    case Finite(v) => v > y
    case PosInf => true
    case _ => false
  }

  /** JavaScript `x % y`: the remainder of a division truncated towards zero, NaN for a zero divisor or an infinite dividend. */
  function Remainder(x: Double, y: real): (r: Double)
    ensures y == 0.0 || !x.Finite? ==> r.NaN?
    ensures y > 0.0 && x.Finite? && x.v >= 0.0 ==> r.Finite? && 0.0 <= r.v < y
  {
    if y == 0.0 || !x.Finite? then NaN
    else
      var q := Trunc(x.v / y);
      assert x.v >= 0.0 && y > 0.0 ==> q as real <= x.v / y < q as real + 1.0;
      RemainderBound(x.v, y, q);
      Finite(x.v - y * (q as real))
  }

  lemma RemainderBound(x: real, y: real, q: int)
    requires y != 0.0
    ensures x >= 0.0 && y > 0.0 && q as real <= x / y < q as real + 1.0 ==> 0.0 <= x - y * (q as real) < y
  {
    if x >= 0.0 && y > 0.0 && q as real <= x / y < q as real + 1.0 {
      FractionScaled(x, y, q as real);
    }
  }

  /** The part of x / y above a whole number q, scaled back by y, is x - y * q. */
  lemma FractionScaled(x: real, y: real, q: real)
    requires y > 0.0 && q <= x / y < q + 1.0
    ensures 0.0 <= x - y * q < y
  {
    var d := x / y - q;
    assert y * d == y * (x / y) - y * q;
    assert y * (x / y) == x;
    ScaleMonotone(y, 0.0, d);
    ScaleMonotone(y, d, 1.0);
    assert 0.0 <= y * d < y;
    assert y * d == x - y * q;
  }

  /** Multiplying by a positive number keeps the order. */
  lemma ScaleMonotone(c: real, a: real, b: real)
    requires c > 0.0
    ensures a <= b ==> c * a <= c * b
    ensures a < b ==> c * a < c * b
  {
    assert c * b - c * a == c * (b - a);
  }

  /** What one _render step does to the clock, and what it asks of the nodes. */
  datatype Tick = Tick(framesToAdvance: int, accumulatedTime: real, currentFrame: Double,
                       updated: bool, wrapped: bool, stopping: bool)

  /**
   * The frame arithmetic of _render: the elapsed time is accumulated and
   * the whole frames in it are taken out; the frame advances by them; a
   * frame before the start is not drawn; past the end the frame wraps
   * around (looping) or is clamped to the end, and playing stops after it
   * is drawn.
   */
  function Advance(frame: Double, accumulated: real, delta: real, frameDuration: real,
                   startFrame: real, endFrame: real, loop: bool): (t: Tick)
    requires frameDuration > 0.0
  {
    var acc := accumulated + delta;
    var f := (acc / frameDuration).Floor;
    if f <= 0 then Tick(f, acc, frame, false, false, false)
    else
      var rest := acc - f as real * frameDuration;
      var next := Plus(frame, f as real);
      if LessThan(next, startFrame) then Tick(f, rest, next, false, false, false)
      else if GreaterThan(next, endFrame) then
        if loop then Tick(f, rest, Plus(Remainder(next, endFrame - startFrame), startFrame), true, true, false)
        else Tick(f, rest, Finite(endFrame), true, false, true)
      else Tick(f, rest, next, true, false, false)
  }

  /** No whole frame elapsed: the time is kept for later and the frame neither moves nor is drawn. */
  lemma AdvanceNoWholeFrame(frame: Double, accumulated: real, delta: real, frameDuration: real,
                            startFrame: real, endFrame: real, loop: bool)
    requires frameDuration > 0.0
    ensures var t := Advance(frame, accumulated, delta, frameDuration, startFrame, endFrame, loop);
      t.framesToAdvance <= 0 ==>
        t.currentFrame == frame && t.accumulatedTime == accumulated + delta && !t.updated && !t.stopping
  {
  }

  /**
   * Whole frames elapsed: the accumulated time drops by exactly those
   * frames, and what is left is less than one frame and not negative.
   */
  lemma AdvanceTakesWholeFrames(frame: Double, accumulated: real, delta: real, frameDuration: real,
                                startFrame: real, endFrame: real, loop: bool)
    requires frameDuration > 0.0
    ensures var t := Advance(frame, accumulated, delta, frameDuration, startFrame, endFrame, loop);
      t.framesToAdvance > 0 ==>
        t.accumulatedTime == accumulated + delta - t.framesToAdvance as real * frameDuration
        && 0.0 <= t.accumulatedTime < frameDuration
        && (t.updated && !t.wrapped && !t.stopping ==> t.currentFrame == Plus(frame, t.framesToAdvance as real))
  {
    var acc := accumulated + delta;
    var f := (acc / frameDuration).Floor;
    if f > 0 {
      WholeFramesBound(acc, frameDuration, f);
    }
  }

  lemma WholeFramesBound(acc: real, frameDuration: real, f: int)
    requires frameDuration > 0.0 && f == (acc / frameDuration).Floor
    ensures 0.0 <= acc - f as real * frameDuration < frameDuration
  {
    FractionScaled(acc, frameDuration, f as real);
    assert frameDuration * (f as real) == f as real * frameDuration;
  }

  /** After any step the accumulated time is below one frame duration. */
  lemma AdvanceBelowOneFrame(frame: Double, accumulated: real, delta: real, frameDuration: real,
                             startFrame: real, endFrame: real, loop: bool)
    requires frameDuration > 0.0
    ensures Advance(frame, accumulated, delta, frameDuration, startFrame, endFrame, loop).accumulatedTime < frameDuration
  {
    var acc := accumulated + delta;
    var f := (acc / frameDuration).Floor;
    if f <= 0 {
      assert acc / frameDuration < 1.0;
      assert frameDuration * (acc / frameDuration) == acc;
    } else {
      WholeFramesBound(acc, frameDuration, f);
    }
  }

  /** Without looping, a frame past the end is clamped to the end, drawn, and playing stops after it. */
  lemma AdvanceClamps(frame: Double, accumulated: real, delta: real, frameDuration: real,
                      startFrame: real, endFrame: real)
    requires frameDuration > 0.0 && startFrame <= endFrame
    ensures var t := Advance(frame, accumulated, delta, frameDuration, startFrame, endFrame, false);
      t.framesToAdvance > 0 && GreaterThan(Plus(frame, t.framesToAdvance as real), endFrame) ==>
        t.currentFrame == Finite(endFrame) && t.updated && t.stopping && !t.wrapped
  {
  }

  /**
   * With looping and a frame range 0 <= start < end, a finite frame past
   * the end wraps around into [start, end) and the nodes are reset.
   */
  lemma AdvanceWraps(frame: Double, accumulated: real, delta: real, frameDuration: real,
                     startFrame: real, endFrame: real)
    requires frameDuration > 0.0 && 0.0 <= startFrame < endFrame && frame.Finite?
    ensures var t := Advance(frame, accumulated, delta, frameDuration, startFrame, endFrame, true);
      t.framesToAdvance > 0 && GreaterThan(Plus(frame, t.framesToAdvance as real), endFrame) ==>
        t.currentFrame.Finite? && startFrame <= t.currentFrame.v < endFrame && t.updated && t.wrapped && !t.stopping
  {
  }

  /** With looping over an empty frame range the wrapped frame is NaN (a remainder by zero). */
  lemma AdvanceEmptyRangeLoop(frame: Double, accumulated: real, delta: real, frameDuration: real, startFrame: real)
    requires frameDuration > 0.0
    ensures var t := Advance(frame, accumulated, delta, frameDuration, startFrame, startFrame, true);
      t.framesToAdvance > 0 && GreaterThan(Plus(frame, t.framesToAdvance as real), startFrame) ==> t.currentFrame.NaN?
  {
  }

  /** A finite frame that is drawn without wrapping or clamping lies within [start, end]. */
  lemma AdvanceInRange(frame: Double, accumulated: real, delta: real, frameDuration: real,
                       startFrame: real, endFrame: real, loop: bool)
    requires frameDuration > 0.0 && frame.Finite?
    ensures var t := Advance(frame, accumulated, delta, frameDuration, startFrame, endFrame, loop);
      t.updated && !t.wrapped && !t.stopping ==>
        t.currentFrame.Finite? && startFrame <= t.currentFrame.v <= endFrame
  {
  }

  /**
   * The elapsed time the render-loop callback measures: zero on the very
   * first callback, which synchronises the clock, and the time since the
   * last recorded frame time afterwards.
   */
  function FrameDelta(firstRun: bool, lastFrameTime: real, currentTime: real): (d: real)
    ensures firstRun ==> d == 0.0
    ensures !firstRun ==> d + lastFrameTime == currentTime
  {
    var last := if firstRun then currentTime else lastFrameTime;
    currentTime - last
  }

  /**
   * Played a second time, the clock is not synchronised again: playing
   * sets the last frame time to 0 but leaves the first-run flag cleared,
   * so the first callback measures the time since page load. Ten seconds
   * after page load, a two-second animation at 30 frames per second that
   * does not loop jumps straight to its last frame and stops.
   */
  lemma ReplayJumpsToEnd()
    ensures Advance(Finite(0.0), 0.0, FrameDelta(false, 0.0, 10000.0), 1000.0 / 30.0, 0.0, 60.0, false)
         == Tick(300, 0.0, Finite(60.0), true, false, true)
  {
    assert FrameDelta(false, 0.0, 10000.0) / (1000.0 / 30.0) == 300.0;
  }

  /**
   * With the clock synchronised again on play, the first callback after
   * playing measures no elapsed time, so the animation starts at frame 0
   * whatever the time since page load.
   */
  lemma ResyncedReplayStartsAtZero(lastFrameTime: real, currentTime: real, frameDuration: real,
                                   startFrame: real, endFrame: real, loop: bool)
    requires frameDuration > 0.0
    ensures Advance(Finite(0.0), 0.0, FrameDelta(true, lastFrameTime, currentTime), frameDuration, startFrame, endFrame, loop)
         == Tick(0, 0.0, Finite(0.0), false, false, false)
  {
  }

  // ---------------------------------------------------------------------
  // The controller

  /** The playback clock: the frame, the time accumulated towards the next frame, the whole frames last taken, whether playing. */
  datatype Playback = Playback(currentFrame: Double, accumulatedTime: real, framesToAdvance: int, isPlaying: bool)

  /** The render loop's time keeping. */
  datatype Timing = Timing(lastFrameTime: real, deltaTime: real, firstRun: bool)

  /** The animation frames requested from the browser (the latest one's id is their number) and those cancelled, in order. */
  datatype Requests = Requests(requests: nat, animationFrameId: Option<nat>, cancelled: seq<nat>)

  /**
   * What the engine and the nodes were asked to do: the canvas scale and
   * the back buffer size last set, the frames the nodes were updated to
   * (one per drawn frame), the wrap-around resets and the draws.
   */
  datatype Drawing = Drawing(canvasScale: real, renderWidth: real, renderHeight: real,
                             updates: seq<Double>, resets: nat, draws: nat)

  /**
   * The effect of _render on the playback clock and on what is drawn:
   * nothing without an animation or while stopped; otherwise one step of
   * Advance, with the drawn frame recorded, a wrap-around counted as a
   * reset of the nodes, and playing stopped after a clamped last frame.
   */
  function RenderStep(p: Playback, d: Drawing, animation: Option<AnimationInfo>,
                      delta: real, frameDuration: real, loop: bool): (r: (Playback, Drawing))
    requires frameDuration > 0.0
  {
    if animation.None? || !p.isPlaying then (p, d)
    else
      var a := animation.value;
      Ticked(p, d, Advance(p.currentFrame, p.accumulatedTime, delta, frameDuration, a.startFrame, a.endFrame, loop))
  }

  /** The clock and the drawing after a tick while playing. */
  function Ticked(p: Playback, d: Drawing, t: Tick): (Playback, Drawing) {
    (Playback(t.currentFrame, t.accumulatedTime, t.framesToAdvance, p.isPlaying && !t.stopping),
     d.(updates := d.updates + (if t.updated then [t.currentFrame] else []),
        resets := d.resets + (if t.wrapped then 1 else 0),
        draws := d.draws + (if t.updated then 1 else 0)))
  }

  /**
   * The arithmetic of _render, step by step with early returns: the time
   * is accumulated, the whole frames taken out of it, the frame advanced,
   * and wrapped around or clamped past the end.
   */
  method StepClock(frame: Double, accumulated: real, delta: real, frameDuration: real,
                   startFrame: real, endFrame: real, loop: bool) returns (t: Tick)
    requires frameDuration > 0.0
    ensures t == Advance(frame, accumulated, delta, frameDuration, startFrame, endFrame, loop)
  {
    var accumulatedTime := accumulated + delta;
    var framesToAdvance := (accumulatedTime / frameDuration).Floor;
    if framesToAdvance <= 0 {
      return Tick(framesToAdvance, accumulatedTime, frame, false, false, false);
    }
    accumulatedTime := accumulatedTime - framesToAdvance as real * frameDuration;
    var currentFrame := Plus(frame, framesToAdvance as real);
    if LessThan(currentFrame, startFrame) {
      return Tick(framesToAdvance, accumulatedTime, currentFrame, false, false, false);
    }
    var stoppingAfterThisFrame := false;
    var wrapped := false;
    if GreaterThan(currentFrame, endFrame) {
      if loop {
        currentFrame := Plus(Remainder(currentFrame, endFrame - startFrame), startFrame);
        wrapped := true;
      } else {
        currentFrame := Finite(endFrame);
        stoppingAfterThisFrame := true;
      }
    }
    t := Tick(framesToAdvance, accumulatedTime, currentFrame, true, wrapped, stoppingAfterThisFrame);
  }

  class AnimationController {
    // Set once by the constructor and never changed afterwards.
    const isReady: bool
    const animation: Option<AnimationInfo>
    const configuration: Configuration
    const atlasScale: real
    const loop: bool
    const frameDuration: real
    var firstRun: bool
    var currentFrame: Double
    var isPlaying: bool
    var animationFrameId: Option<nat>
    var lastFrameTime: real
    var deltaTime: real
    var accumulatedTime: real
    var framesToAdvance: int
    var canvasScale: real
    var renderWidth: real
    var renderHeight: real
    var requests: nat
    var cancelled: seq<nat>
    var updates: seq<Double>
    var resets: nat
    var draws: nat

    function PlaybackState(): Playback
      reads this`currentFrame, this`accumulatedTime, this`framesToAdvance, this`isPlaying
    {
      Playback(currentFrame, accumulatedTime, framesToAdvance, isPlaying)
    }

    function TimingState(): Timing
      reads this`lastFrameTime, this`deltaTime, this`firstRun
    {
      Timing(lastFrameTime, deltaTime, firstRun)
    }

    function RequestsState(): Requests
      reads this`requests, this`animationFrameId, this`cancelled
    {
      Requests(requests, animationFrameId, cancelled)
    }

    function DrawingState(): Drawing
      reads this`canvasScale, this`renderWidth, this`renderHeight, this`updates, this`resets, this`draws
    {
      Drawing(canvasScale, renderWidth, renderHeight, updates, resets, draws)
    }

    /** The frame duration is positive and less than one frame of time is ever left accumulated. */
    ghost predicate Valid()
      reads this`accumulatedTime
    {
      frameDuration > 0.0 && accumulatedTime < frameDuration
    }

    /**
     * The constructor: the configuration is finalised for the GPU's
     * maximum texture size, the frame duration follows the animation's
     * frame rate, the node tree is pruned, and the engine is sized to the
     * animation at the canvas scale and pixel ratio (drawing once, since
     * nothing is playing yet). `windowDpr` is None when there is no window.
     */
    constructor (rawWidth: real, rawHeight: real, canvasScale: real, atlasScale: real, p: Partial,
                 maxTextureSize: real, mainThreadDpr: Option<real>, windowDpr: Option<real>, info: AnimationInfo)
      requires info.frameRate > 0.0
      ensures Valid()
      ensures isReady && configuration == UpdateConfiguration(p, maxTextureSize, mainThreadDpr, windowDpr)
      ensures loop == configuration.loopAnimation && this.atlasScale == atlasScale
      ensures animation == Some(info.(nodes := Pruned(info.nodes)))
      ensures frameDuration * info.frameRate == 1000.0
      ensures PlaybackState() == Playback(Finite(0.0), 0.0, 0, false)
      ensures TimingState() == Timing(0.0, 0.0, true)
      ensures RequestsState() == Requests(0, None, [])
      ensures DrawingState() == Drawing(canvasScale, rawWidth * canvasScale * configuration.devicePixelRatio,
                                        rawHeight * canvasScale * configuration.devicePixelRatio, [], 0, 1)
    {
      var config := UpdateConfiguration(p, maxTextureSize, mainThreadDpr, windowDpr);
      var nodes := CleanTree(info.nodes);
      this.canvasScale := canvasScale;
      this.atlasScale := atlasScale;
      currentFrame := Finite(0.0);
      isPlaying := false;
      animationFrameId := None;
      lastFrameTime := 0.0;
      deltaTime := 0.0;
      accumulatedTime := 0.0;
      framesToAdvance := 0;
      firstRun := true;
      configuration := config;
      loop := config.loopAnimation;
      animation := Some(info.(nodes := nodes));
      frameDuration := 1000.0 / info.frameRate;
      renderWidth := rawWidth * canvasScale * config.devicePixelRatio;
      renderHeight := rawHeight * canvasScale * config.devicePixelRatio;
      requests := 0;
      cancelled := [];
      updates := [];
      resets := 0;
      draws := 1;
      isReady := true;
    }

    /** _startRenderLoop: while playing, one more animation frame is requested and its id kept. */
    method StartRenderLoop()
      modifies this`requests, this`animationFrameId
      ensures isPlaying ==> requests == old(requests) + 1 && animationFrameId == Some(requests)
      ensures !isPlaying ==> requests == old(requests) && animationFrameId == old(animationFrameId)
    {
      if isPlaying {
        requests := requests + 1;
        animationFrameId := Some(requests);
      }
    }

    /**
     * playAnimation: only a ready controller with an animation plays; it
     * restarts at frame 0 with nothing accumulated, marks the last frame
     * time as 0 and requests the first animation frame. The first-run
     * flag is left as it is.
     */
    method Play()
      requires Valid()
      modifies this`currentFrame, this`accumulatedTime, this`framesToAdvance, this`isPlaying, this`lastFrameTime
      modifies this`requests, this`animationFrameId
      ensures Valid()
      ensures animation.None? || !isReady ==>
        PlaybackState() == old(PlaybackState()) && lastFrameTime == old(lastFrameTime)
        && requests == old(requests) && animationFrameId == old(animationFrameId)
      ensures animation.Some? && isReady ==>
        PlaybackState() == Playback(Finite(0.0), 0.0, 0, true) && lastFrameTime == 0.0
        && requests == old(requests) + 1 && animationFrameId == Some(requests)
    {
      if animation.None? || !isReady {
        return;
      }
      currentFrame := Finite(0.0);
      accumulatedTime := 0.0;
      framesToAdvance := 0;
      isPlaying := true;
      lastFrameTime := 0.0;
      StartRenderLoop();
    }

    /**
     * Play, with the clock synchronised again: the first callback after
     * it measures no elapsed time, however long ago the previous run was.
     */
    method PlayResynced()
      requires Valid()
      modifies this`currentFrame, this`accumulatedTime, this`framesToAdvance, this`isPlaying, this`lastFrameTime
      modifies this`requests, this`animationFrameId, this`firstRun
      ensures Valid()
      ensures animation.None? || !isReady ==>
        PlaybackState() == old(PlaybackState()) && TimingState() == old(TimingState())
        && requests == old(requests) && animationFrameId == old(animationFrameId)
      ensures animation.Some? && isReady ==>
        PlaybackState() == Playback(Finite(0.0), 0.0, 0, true)
        && (forall t :: FrameDelta(firstRun, lastFrameTime, t) == 0.0)
        && requests == old(requests) + 1 && animationFrameId == Some(requests)
    {
      Play();
      if animation.Some? && isReady {
        firstRun := true;
      }
    }

    /** stopAnimation: nothing stays accumulated, playing stops, and a pending animation frame is cancelled. */
    method Stop()
      requires Valid()
      modifies this`accumulatedTime, this`framesToAdvance, this`isPlaying, this`animationFrameId, this`cancelled
      ensures Valid()
      ensures accumulatedTime == 0.0 && framesToAdvance == 0 && !isPlaying && animationFrameId.None?
      ensures cancelled == old(cancelled) + (if old(animationFrameId).Some? then [old(animationFrameId).value] else [])
    {
      accumulatedTime := 0.0;
      framesToAdvance := 0;
      isPlaying := false;
      if animationFrameId.Some? {
        cancelled := cancelled + [animationFrameId.value];
        animationFrameId := None;
      }
    }

    /**
     * _setSize: the back buffer is sized to the animation times the canvas
     * scale and the pixel ratio; when nothing is playing the last frame is
     * drawn again, since resizing clears it.
     */
    method SetSize(width: real, height: real, scale: real)
      modifies this`renderWidth, this`renderHeight, this`draws
      ensures renderWidth == width * scale * configuration.devicePixelRatio
      ensures renderHeight == height * scale * configuration.devicePixelRatio
      ensures draws == old(draws) + (if !isPlaying && animation.Some? then 1 else 0)
    {
      renderWidth := width * scale * configuration.devicePixelRatio;
      renderHeight := height * scale * configuration.devicePixelRatio;
      if !isPlaying && animation.Some? {
        draws := draws + 1;
      }
    }

    /**
     * setScale: a scale that is not positive, or a controller without an
     * animation, is ignored; otherwise the canvas scale is replaced and the
     * engine resized to the animation at that scale (drawing again when
     * nothing is playing).
     */
    method SetScale(scale: real)
      modifies this`canvasScale, this`renderWidth, this`renderHeight, this`draws
      ensures scale <= 0.0 || animation.None? ==> DrawingState() == old(DrawingState())
      ensures scale > 0.0 && animation.Some? ==>
        canvasScale == scale
        && renderWidth == animation.value.widthPx * scale * configuration.devicePixelRatio
        && renderHeight == animation.value.heightPx * scale * configuration.devicePixelRatio
        && draws == old(draws) + (if isPlaying then 0 else 1)
    {
      if scale <= 0.0 || animation.None? {
        return;
      }
      canvasScale := scale;
      SetSize(animation.value.widthPx, animation.value.heightPx, canvasScale);
    }

    /**
     * _render: nothing happens without an animation or while stopped;
     * otherwise the clock takes one step of Advance, the nodes are reset
     * on a wrap-around and updated to the drawn frame, and playing stops
     * after a clamped last frame.
     */
    method Render()
      requires Valid()
      modifies this`framesToAdvance, this`accumulatedTime, this`currentFrame, this`isPlaying
      modifies this`updates, this`resets, this`draws
      ensures Valid()
      ensures (PlaybackState(), DrawingState())
           == RenderStep(old(PlaybackState()), old(DrawingState()), animation, deltaTime, frameDuration, loop)
    {
      if animation.None? || !isPlaying {
        return;
      }
      var a := animation.value;
      AdvanceBelowOneFrame(currentFrame, accumulatedTime, deltaTime, frameDuration, a.startFrame, a.endFrame, loop);
      var t := StepClock(currentFrame, accumulatedTime, deltaTime, frameDuration, a.startFrame, a.endFrame, loop);
      ApplyTick(t);
    }

    /**
     * The field updates of _render once the tick is known: the clock
     * fields take the tick's values, a wrap-around resets the nodes, a
     * drawn frame updates them and is rendered, and a clamped last frame
     * stops playing.
     */
    method ApplyTick(t: Tick)
      requires frameDuration > 0.0 && t.accumulatedTime < frameDuration
      modifies this`framesToAdvance, this`accumulatedTime, this`currentFrame, this`isPlaying
      modifies this`updates, this`resets, this`draws
      ensures Valid()
      ensures (PlaybackState(), DrawingState()) == Ticked(old(PlaybackState()), old(DrawingState()), t)
    {
      framesToAdvance := t.framesToAdvance;
      accumulatedTime := t.accumulatedTime;
      currentFrame := t.currentFrame;
      resets := resets + (if t.wrapped then 1 else 0);
      updates := updates + (if t.updated then [t.currentFrame] else []);
      draws := draws + (if t.updated then 1 else 0);
      isPlaying := isPlaying && !t.stopping;
    }

    /**
     * The render-loop callback for an animation frame at `currentTime`:
     * the first one synchronises the clock; the elapsed time since the
     * last frame time is measured, one render step taken, the last frame
     * time set to `now` (the time after rendering), and another animation
     * frame requested while still playing.
     */
    method OnAnimationFrame(currentTime: real, now: real)
      requires Valid()
      modifies this`firstRun, this`lastFrameTime, this`deltaTime
      modifies this`framesToAdvance, this`accumulatedTime, this`currentFrame, this`isPlaying
      modifies this`updates, this`resets, this`draws, this`requests, this`animationFrameId
      ensures Valid()
      ensures TimingState() == Timing(now, FrameDelta(old(firstRun), old(lastFrameTime), currentTime), false)
      ensures (PlaybackState(), DrawingState())
           == RenderStep(old(PlaybackState()), old(DrawingState()), animation, deltaTime, frameDuration, loop)
      ensures isPlaying ==> requests == old(requests) + 1 && animationFrameId == Some(requests)
      ensures !isPlaying ==> requests == old(requests) && animationFrameId == old(animationFrameId)
    {
      if firstRun {
        lastFrameTime := currentTime;
        firstRun := false;
      }
      deltaTime := currentTime - lastFrameTime;
      lastFrameTime := currentTime;
      Render();
      lastFrameTime := now;
      if isPlaying {
        StartRenderLoop();
      }
    }
  }
}
