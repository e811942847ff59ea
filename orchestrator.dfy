/**
 * The Simulation orchestrator: two ping-pong framebuffers, the GL binding state the
 * passes rely on, the six parameters with their setters, and the pass schedule that
 * `update()` runs once per animation frame.
 *
 * The GPU is modelled by its effect: a draw with a compute shader overwrites the
 * texture of the bound framebuffer with the shader's kernel applied to the bound
 * texture; the Display draw puts a Picture of the bound texture on the screen.
 */
module Orchestrator {
  import opened Wrappers
  import opened Kernels
  import opened Schedule
  import opened Parameters

  /** The simulated time one step adds. */
  const TimeStep: real := 0.016

  /** What a texture can hold: a well-formed grid. */
  type Texture = g: Grid | g.Valid() witness Grid(1, 1, [[Cell(0.0, 0.0, 0.0, 0.0)]])

  /** One framebuffer with its colour attachment; `texture` is what the texture holds. */
  class FrameBuffer {
    var texture: Texture

    /** A texture allocated at the simulation size without initial data. */
    constructor (width: nat, height: nat)
      requires width > 0 && height > 0
      ensures texture == Blank(width, height)
    {
      texture := Blank(width, height);
    }
  }

  /** What the Display pass leaves on the screen: the texture it sampled (None while no
      texture is bound yet), coloured in the plain (false) or the fancy (true) mode. */
  datatype Picture = Picture(source: Option<Grid>, fancy: bool)

  /** The simulated time k steps add, accumulated one step at a time. */
  function Elapsed(k: nat): real {
    if k == 0 then 0.0 else Elapsed(k - 1) + TimeStep
  }

  /** k steps add k time steps. */
  lemma {:induction false} ElapsedIsProportional(k: nat)
    ensures Elapsed(k) == k as real * TimeStep
  {
    if k > 0 {
      ElapsedIsProportional(k - 1);
    }
  }

  /** The number of iterations of a `for (i = 0; i < n; i++)` loop. */
  function IterationCount(n: int): (r: nat)
    ensures n >= 0 ==> r == n
    ensures n < 0 ==> r == 0
  {
    if n > 0 then n else 0
  }

  class Simulation {
    const width: nat
    const height: nat

    /** The ping-pong pair; a pass swaps it, then writes [0] while sampling [1]. */
    var frameBuffers: seq<FrameBuffer>
    ghost const Repr: set<FrameBuffer>

    /** GL binding state: the draw framebuffer (null is the screen) and the sampled texture. */
    var drawTarget: FrameBuffer?
    var boundTexture: FrameBuffer?
    /** The rate uniforms as last uploaded; GL starts every uniform at zero. */
    var uniforms: Uniforms
    /** The last picture the Display pass drew, if any. */
    var screen: Option<Picture>

    var shouldResetSimulation: bool
    var simulationTime: real

    var nStepsPerFrame: int
    var useFancyRendering: bool
    var feedRate: real
    var removeRate: real
    var diffuseRateB: real
    var diffuseRadius: int

    /** Every swap and draw issued so far. */
    ghost var trace: seq<Event>

    /** The parameters hold values their setters accept. */
    ghost predicate ParametersInDomain()
      reads this
    {
      MinPassCount <= nStepsPerFrame <= MaxPassCount &&
      MinPassCount <= diffuseRadius <= MaxPassCount &&
      feedRate >= 0.0 && removeRate >= 0.0 && 0.0 <= diffuseRateB <= 1.0
    }

    ghost predicate Valid()
      reads this, Repr
    {
      width > 0 && height > 0 &&
      |frameBuffers| == 2 && frameBuffers[0] != frameBuffers[1] &&
      frameBuffers[0] in Repr && frameBuffers[1] in Repr &&
      frameBuffers[0].texture.width == width && frameBuffers[0].texture.height == height &&
      frameBuffers[1].texture.width == width && frameBuffers[1].texture.height == height &&
      (drawTarget == null || drawTarget == frameBuffers[0]) &&
      (boundTexture == null || boundTexture == frameBuffers[1]) &&
      ParametersInDomain()
    }

    /** After step i from `start` with the uniforms u and the radius `radius`: the pair is
        bound for the next pass, and [1] holds the diffused field that step i's Reaction
        pass sampled. */
    ghost predicate LastStepBound(start: Texture, i: nat, u: Uniforms, radius: nat)
      reads this, Repr
      requires Valid() && i > 0
    {
      drawTarget == frameBuffers[0] && boundTexture == frameBuffers[1] &&
      frameBuffers[1].texture == LastDiffused(start, i, radius, u)
    }

    /** The `size` getter: a fresh [width, height] pair. */
    function Size(): (r: seq<nat>)
      ensures |r| == 2 && r[0] == width && r[1] == height
    {
      [width, height]
    }

    constructor (simulationWidth: nat, simulationHeight: nat)
      requires simulationWidth > 0 && simulationHeight > 0
      ensures Valid() && fresh(Repr)
      ensures width == simulationWidth && height == simulationHeight
      ensures frameBuffers[0].texture == Blank(width, height) && frameBuffers[1].texture == Blank(width, height)
      ensures drawTarget == null && boundTexture == null && screen == None
      ensures uniforms == Uniforms(0.0, 0.0, 0.0)
      ensures shouldResetSimulation && simulationTime == 0.0
      ensures nStepsPerFrame == 4 && !useFancyRendering
      ensures feedRate == 0.02 && removeRate == 0.06 && diffuseRateB == 0.5 && diffuseRadius == 4
      ensures trace == []
    {
      width, height := simulationWidth, simulationHeight;
      var first := new FrameBuffer(simulationWidth, simulationHeight);
      var second := new FrameBuffer(simulationWidth, simulationHeight);
      frameBuffers := [first, second];
      Repr := {first, second};
      drawTarget, boundTexture := null, null;
      uniforms := Uniforms(0.0, 0.0, 0.0);
      screen := None;
      shouldResetSimulation, simulationTime := true, 0.0;
      nStepsPerFrame, useFancyRendering := 4, false;
      feedRate, removeRate, diffuseRateB, diffuseRadius := 0.02, 0.06, 0.5, 4;
      trace := [];
    }

    // -------------------------------------------------------------------------
    // Parameters
    // -------------------------------------------------------------------------

    /** Requests a Reset pass at the next update. */
    method ResetSimulation()
      requires Valid()
      modifies this`shouldResetSimulation
      ensures Valid() && shouldResetSimulation
    {
      shouldResetSimulation := true;
    }

    method SetNStepsPerFrame(steps: Input) returns (r: Outcome<SetterError>)
      requires Valid()
      modifies this`nStepsPerFrame
      ensures Valid()
      ensures r == OutcomeOf(CheckPassCount(steps, StepsPerFrameError))
      ensures nStepsPerFrame == StoredValue(CheckPassCount(steps, StepsPerFrameError), old(nStepsPerFrame))
      ensures r.Pass? ==> Denotes(steps, nStepsPerFrame)
    {
      var checked := CheckPassCount(steps, StepsPerFrameError);
      r := OutcomeOf(checked);
      nStepsPerFrame := StoredValue(checked, nStepsPerFrame);
    }

    method SetUseFancyRendering(b: Input) returns (r: Outcome<SetterError>)
      requires Valid()
      modifies this`useFancyRendering
      ensures Valid()
      ensures r == OutcomeOf(CheckBoolean(b))
      ensures useFancyRendering == StoredValue(CheckBoolean(b), old(useFancyRendering))
      ensures r.Pass? ==> b == Boolean(useFancyRendering)
    {
      var checked := CheckBoolean(b);
      r := OutcomeOf(checked);
      useFancyRendering := StoredValue(checked, useFancyRendering);
    }

    method SetFeedRate(rate: Input) returns (r: Outcome<SetterError>)
      requires Valid()
      modifies this`feedRate
      ensures Valid()
      ensures r == OutcomeOf(CheckRate(rate, FeedRateError))
      ensures feedRate == StoredValue(CheckRate(rate, FeedRateError), old(feedRate))
      ensures r.Pass? ==> ToNumber(rate) == Some(feedRate)
    {
      var checked := CheckRate(rate, FeedRateError);
      r := OutcomeOf(checked);
      feedRate := StoredValue(checked, feedRate);
    }

    method SetRemoveRate(rate: Input) returns (r: Outcome<SetterError>)
      requires Valid()
      modifies this`removeRate
      ensures Valid()
      ensures r == OutcomeOf(CheckRate(rate, RemoveRateError))
      ensures removeRate == StoredValue(CheckRate(rate, RemoveRateError), old(removeRate))
      ensures r.Pass? ==> ToNumber(rate) == Some(removeRate)
    {
      var checked := CheckRate(rate, RemoveRateError);
      r := OutcomeOf(checked);
      removeRate := StoredValue(checked, removeRate);
    }

    method SetDiffuseRateB(rate: Input) returns (r: Outcome<SetterError>)
      requires Valid()
      modifies this`diffuseRateB
      ensures Valid()
      ensures r == OutcomeOf(CheckUnitRate(rate))
      ensures diffuseRateB == StoredValue(CheckUnitRate(rate), old(diffuseRateB))
      ensures r.Pass? ==> ToNumber(rate) == Some(diffuseRateB)
    {
      var checked := CheckUnitRate(rate);
      r := OutcomeOf(checked);
      diffuseRateB := StoredValue(checked, diffuseRateB);
    }

    method SetDiffuseRadius(steps: Input) returns (r: Outcome<SetterError>)
      requires Valid()
      modifies this`diffuseRadius
      ensures Valid()
      ensures r == OutcomeOf(CheckPassCount(steps, DiffuseRadiusError))
      ensures diffuseRadius == StoredValue(CheckPassCount(steps, DiffuseRadiusError), old(diffuseRadius))
      ensures r.Pass? ==> Denotes(steps, diffuseRadius)
    {
      var checked := CheckPassCount(steps, DiffuseRadiusError);
      r := OutcomeOf(checked);
      diffuseRadius := StoredValue(checked, diffuseRadius);
    }

    /** #updateUniforms: uploads the current rates to the reaction and diffusion programs. */
    method UpdateUniforms()
      requires Valid()
      modifies this`uniforms
      ensures Valid()
      ensures uniforms == Uniforms(feedRate, removeRate, diffuseRateB)
    {
      uniforms := Uniforms(feedRate, removeRate, diffuseRateB);
    }

    // -------------------------------------------------------------------------
    // Passes
    // -------------------------------------------------------------------------

    /** #swapBuffers: exchanges the pair, then binds [0] for drawing and [1] for sampling. */
    method SwapBuffers()
      requires Valid()
      modifies this`frameBuffers, this`drawTarget, this`boundTexture, this`trace
      ensures Valid()
      ensures frameBuffers == Exchanged(old(frameBuffers), 1)
      ensures drawTarget == frameBuffers[0] && boundTexture == frameBuffers[1]
      ensures trace == old(trace) + [Swap]
    {
      frameBuffers := [frameBuffers[1], frameBuffers[0]];
      drawTarget := frameBuffers[0];
      boundTexture := frameBuffers[1];
      trace := trace + [Swap];
    }

    /** #applyShader followed by the draw: the texture the previous pass wrote is
        sampled, and the kernel's output overwrites the other texture of the pair. */
    method ApplyShader(shader: Shader)
      requires Valid() && shader != DisplayShader
      modifies this`frameBuffers, this`drawTarget, this`boundTexture, this`trace, Repr
      ensures Valid()
      ensures frameBuffers == Exchanged(old(frameBuffers), 1)
      ensures drawTarget == frameBuffers[0] && boundTexture == frameBuffers[1]
      ensures frameBuffers[1].texture == old(frameBuffers[0].texture)
      ensures frameBuffers[0].texture == ApplyPass(shader, old(frameBuffers[0].texture), uniforms)
      ensures trace == old(trace) + PassEvents(shader)
    {
      SwapBuffers();
      var sampled := boundTexture.texture;
      drawTarget.texture := ApplyPass(shader, sampled, uniforms);
      trace := trace + [Draw(shader, Offscreen)];
    }

    /** The loop of #doSimulationStep: `count` Diffusion passes, each sampling the
        texture the previous pass wrote. */
    method DiffusionPasses(count: nat)
      requires Valid() && drawTarget == frameBuffers[0] && boundTexture == frameBuffers[1]
      modifies this`frameBuffers, this`drawTarget, this`boundTexture, this`trace, Repr
      ensures Valid() && drawTarget == frameBuffers[0] && boundTexture == frameBuffers[1]
      ensures frameBuffers[0].texture == DiffuseRepeated(old(frameBuffers[0].texture), count, uniforms.diffuseRateB)
      ensures trace == old(trace) + Repeat(PassEvents(DiffusionShader), count)
    {
      ghost var start := frameBuffers[0].texture;
      ghost var rateB := uniforms.diffuseRateB;
      var i := 0;
      while i < count
        invariant Valid() && drawTarget == frameBuffers[0] && boundTexture == frameBuffers[1]
        invariant 0 <= i <= count
        invariant frameBuffers[0].texture == DiffuseRepeated(start, i, rateB)
        invariant trace == old(trace) + Repeat(PassEvents(DiffusionShader), i)
      {
        ApplyShader(DiffusionShader);
        AppendAssoc(old(trace), Repeat(PassEvents(DiffusionShader), i), PassEvents(DiffusionShader));
        i := i + 1;
      }
    }

    /** #doSimulationStep: BeginStep, diffuseRadius Diffusion passes, React; the clock
        advances by one time step. */
    method DoSimulationStep()
      requires Valid()
      modifies this`frameBuffers, this`drawTarget, this`boundTexture, this`trace,
        this`simulationTime, Repr
      ensures Valid()
      ensures frameBuffers[0].texture == Step(old(frameBuffers[0].texture), diffuseRadius, uniforms)
      ensures frameBuffers[1].texture ==
        DiffuseRepeated(BeginStepGrid(old(frameBuffers[0].texture)), diffuseRadius, uniforms.diffuseRateB)
      ensures frameBuffers[0].texture ==
        ReactGrid(frameBuffers[1].texture, uniforms.feedRate, uniforms.removeRate)
      ensures drawTarget == frameBuffers[0] && boundTexture == frameBuffers[1]
      ensures simulationTime == old(simulationTime) + TimeStep
      ensures trace == old(trace) + StepEvents(diffuseRadius)
    {
      ApplyShader(BeginStepShader);
      DiffusionPasses(diffuseRadius);
      ApplyShader(ReactionShader);
      AppendAssoc(old(trace), PassEvents(BeginStepShader), Repeat(PassEvents(DiffusionShader), diffuseRadius));
      AppendAssoc(old(trace), PassEvents(BeginStepShader) + Repeat(PassEvents(DiffusionShader), diffuseRadius),
        PassEvents(ReactionShader));
      simulationTime := simulationTime + TimeStep;
    }

    /** i simulation steps have run from `start` with the uniforms u and the radius
        `radius`, since the clock read time0 and the trace was trace0. */
    ghost predicate StepsTaken(start: Texture, i: nat, u: Uniforms, radius: nat, time0: real, trace0: seq<Event>)
      reads this, Repr
    {
      Valid() && uniforms == u && diffuseRadius == radius &&
      frameBuffers[0].texture == Steps(start, i, radius, u) &&
      simulationTime == time0 + Elapsed(i) &&
      trace == trace0 + Repeat(StepEvents(radius), i)
    }

    /** One turn of the simulateNSteps loop, stated against the i steps taken so far
        from `start` with the uniforms u and the radius `radius`. */
    method NextStep(ghost start: Texture, ghost i: nat, ghost u: Uniforms, ghost radius: nat,
        ghost time0: real, ghost trace0: seq<Event>)
      requires StepsTaken(start, i, u, radius, time0, trace0)
      modifies this`frameBuffers, this`drawTarget, this`boundTexture, this`trace,
        this`simulationTime, Repr
      ensures StepsTaken(start, i + 1, u, radius, time0, trace0)
      ensures LastStepBound(start, i + 1, u, radius)
    {
      DoSimulationStep();
      AppendAssoc(trace0, Repeat(StepEvents(radius), i), StepEvents(radius));
    }

    /** simulateNSteps: runs max(n, 0) simulation steps. */
    method SimulateNSteps(n: int)
      requires Valid()
      modifies this`frameBuffers, this`drawTarget, this`boundTexture, this`trace,
        this`simulationTime, Repr
      ensures Valid()
      ensures frameBuffers[0].texture ==
        Steps(old(frameBuffers[0].texture), IterationCount(n), diffuseRadius, uniforms)
      ensures simulationTime == old(simulationTime) + Elapsed(IterationCount(n))
      ensures trace == old(trace) + Repeat(StepEvents(diffuseRadius), IterationCount(n))
      ensures n > 0 ==> LastStepBound(old(frameBuffers[0].texture), IterationCount(n), uniforms, diffuseRadius)
      ensures n <= 0 ==>
        frameBuffers == old(frameBuffers) && frameBuffers[1].texture == old(frameBuffers[1].texture) &&
        drawTarget == old(drawTarget) && boundTexture == old(boundTexture)
    {
      ghost var start, u, radius := frameBuffers[0].texture, uniforms, diffuseRadius;
      var i := 0;
      while i < n
        invariant 0 <= i <= IterationCount(n)
        invariant StepsTaken(start, i, u, radius, old(simulationTime), old(trace))
        invariant i > 0 ==> LastStepBound(start, i, u, radius)
        invariant i == 0 ==>
          frameBuffers == old(frameBuffers) && frameBuffers[1].texture == old(frameBuffers[1].texture) &&
          drawTarget == old(drawTarget) && boundTexture == old(boundTexture)
      {
        NextStep(start, i, u, radius, old(simulationTime), old(trace));
        i := i + 1;
      }
      assert i == IterationCount(n);
    }

    /** forceResetSimulation: one Reset pass, then the clock and the pending request clear. */
    method ForceResetSimulation()
      requires Valid()
      modifies this`frameBuffers, this`drawTarget, this`boundTexture, this`trace,
        this`simulationTime, this`shouldResetSimulation, Repr
      ensures Valid()
      ensures frameBuffers[0].texture == ResetGrid(width, height)
      ensures frameBuffers[1].texture == old(frameBuffers[0].texture)
      ensures frameBuffers == Exchanged(old(frameBuffers), 1)
      ensures drawTarget == frameBuffers[0] && boundTexture == frameBuffers[1]
      ensures simulationTime == 0.0 && !shouldResetSimulation
      ensures trace == old(trace) + PassEvents(ResetShader)
    {
      ApplyShader(ResetShader);
      simulationTime := 0.0;
      shouldResetSimulation := false;
    }

    /** renderResults: the Display pass draws to the screen from the bound texture. */
    method RenderResults()
      requires Valid()
      modifies this`drawTarget, this`screen, this`trace
      ensures Valid()
      ensures drawTarget == null
      ensures boundTexture == null ==> screen == Some(Picture(None, useFancyRendering))
      ensures boundTexture != null ==> screen == Some(Picture(Some(boundTexture.texture), useFancyRendering))
      ensures trace == old(trace) + [Draw(DisplayShader, Screen)]
    {
      drawTarget := null;
      var sampled := if boundTexture == null then None else Some(boundTexture.texture);
      screen := Some(Picture(sampled, useFancyRendering));
      trace := trace + [Draw(DisplayShader, Screen)];
    }

    /** The first half of update: upload the rates, then run a pending reset. */
    method PrepareFrame()
      requires Valid()
      modifies this`frameBuffers, this`drawTarget, this`boundTexture, this`trace,
        this`simulationTime, this`shouldResetSimulation, this`uniforms, Repr
      ensures Valid()
      ensures uniforms == Uniforms(feedRate, removeRate, diffuseRateB)
      ensures !shouldResetSimulation
      ensures frameBuffers[0].texture ==
        if old(shouldResetSimulation) then ResetGrid(width, height) else old(frameBuffers[0].texture)
      ensures simulationTime == if old(shouldResetSimulation) then 0.0 else old(simulationTime)
      ensures trace == old(trace) + if old(shouldResetSimulation) then PassEvents(ResetShader) else []
      ensures old(shouldResetSimulation) ==>
        frameBuffers[1].texture == old(frameBuffers[0].texture) &&
        drawTarget == frameBuffers[0] && boundTexture == frameBuffers[1]
      ensures !old(shouldResetSimulation) ==>
        frameBuffers == old(frameBuffers) && frameBuffers[1].texture == old(frameBuffers[1].texture) &&
        drawTarget == old(drawTarget) && boundTexture == old(boundTexture)
    {
      UpdateUniforms();
      if shouldResetSimulation {
        ForceResetSimulation();
      } else {
        assert trace == old(trace) + [];
      }
    }

    /** The second half of update: nStepsPerFrame simulation steps, then Display. */
    method StepAndRender()
      requires Valid()
      modifies this`frameBuffers, this`drawTarget, this`boundTexture, this`trace,
        this`simulationTime, this`screen, Repr
      ensures Valid()
      ensures frameBuffers[0].texture ==
        Steps(old(frameBuffers[0].texture), nStepsPerFrame, diffuseRadius, uniforms)
      ensures frameBuffers[1].texture ==
        LastDiffused(old(frameBuffers[0].texture), nStepsPerFrame, diffuseRadius, uniforms)
      ensures simulationTime == old(simulationTime) + Elapsed(nStepsPerFrame)
      ensures trace == old(trace) + (Repeat(StepEvents(diffuseRadius), nStepsPerFrame) + [Draw(DisplayShader, Screen)])
      ensures drawTarget == null && boundTexture == frameBuffers[1]
      ensures screen == Some(Picture(Some(frameBuffers[1].texture), useFancyRendering))
    {
      SimulateNSteps(nStepsPerFrame);
      ghost var frame := Repeat(StepEvents(diffuseRadius), nStepsPerFrame);
      RenderResults();
      AppendAssoc(old(trace), frame, [Draw(DisplayShader, Screen)]);
    }

    /** update: upload the rates, run a pending reset, nStepsPerFrame steps, then Display. */
    method Update()
      requires Valid()
      modifies this`frameBuffers, this`drawTarget, this`boundTexture, this`trace,
        this`simulationTime, this`shouldResetSimulation, this`uniforms, this`screen, Repr
      ensures Valid()
      ensures uniforms == Uniforms(feedRate, removeRate, diffuseRateB)
      ensures !shouldResetSimulation
      ensures frameBuffers[0].texture == Steps(
        if old(shouldResetSimulation) then ResetGrid(width, height) else old(frameBuffers[0].texture),
        nStepsPerFrame, diffuseRadius, uniforms)
      ensures simulationTime ==
        (if old(shouldResetSimulation) then 0.0 else old(simulationTime)) + Elapsed(nStepsPerFrame)
      ensures trace == old(trace) + UpdateEvents(old(shouldResetSimulation), nStepsPerFrame, diffuseRadius)
      ensures drawTarget == null && boundTexture == frameBuffers[1]
      ensures screen == Some(Picture(Some(frameBuffers[1].texture), useFancyRendering))
      ensures frameBuffers[1].texture == LastDiffused(
        if old(shouldResetSimulation) then ResetGrid(width, height) else old(frameBuffers[0].texture),
        nStepsPerFrame, diffuseRadius, uniforms)
      ensures frameBuffers[0].texture == ReactGrid(frameBuffers[1].texture, feedRate, removeRate)
    {
      ghost var pending := if shouldResetSimulation then PassEvents(ResetShader) else [];
      PrepareFrame();
      ghost var rest := Repeat(StepEvents(diffuseRadius), nStepsPerFrame) + [Draw(DisplayShader, Screen)];
      StepAndRender();
      AppendAssoc(old(trace), pending, rest);
      assert UpdateEvents(old(shouldResetSimulation), nStepsPerFrame, diffuseRadius) == pending + rest;
    }
  }
}
