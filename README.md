# Gray-Scott reaction-diffusion engine, modelled in Dafny

This project models the simulation engine of a browser Gray-Scott reaction-diffusion
simulator, plus its frame-rate meter.

## The engine

The engine keeps two ping-pong framebuffers whose textures hold, per pixel, the
concentrations `a` and `b` of two chemical species and their changes `da`, `db` during
the current step. Every animation frame, `update()` does four things:

- it uploads the rate uniforms;
- it runs a Reset pass if one is pending;
- it runs `nStepsPerFrame` simulation steps (BeginStep, `diffuseRadius` Diffusion passes, Reaction);
- it draws the result to the screen with the Display pass.

Each compute pass swaps the pair and then draws into `frameBuffers[0]` while sampling
`frameBuffers[1]`.

## The modules

- `Kernels` holds the bodies of the Reset, BeginStep, Diffusion and Reaction fragment
  shaders. They are pure functions over a W×H torus of four-channel cells with `real`
  arithmetic. Neighbour reads wrap the way `getUV` and a lookup with REPEAT wrapping
  do. getUV always samples at a texel centre. There the NEAREST minification filter
  and the default LINEAR magnification filter both return that texel.
- `Schedule` holds the grid a sequence of passes computes: one pass, n Diffusion
  passes, one step, n steps. It also holds the event sequence (swaps and draws) that
  the orchestrator issues, and swap counting over that sequence.
- `Parameters` holds the domain checks of the six setters. A setter argument is told
  apart only as far as the checks can tell: a number, something whose numeric
  conversion is NaN, or a boolean.
- `Orchestrator` holds the `Simulation` class and the `FrameBuffer` class.
  - `Simulation` has the parameters, the pending-reset flag, the simulated clock, the
    ping-pong pair and the GL binding state (draw target, bound texture, uniforms, screen).
  - It also has a ghost trace of every swap and draw.
  - Each pass is an imperative method whose contract gives the new textures as kernel
    functions of the old ones, and the new trace as the old trace plus the pass's events.
  - The `for` loops of `#doSimulationStep` and `simulateNSteps` are `while` loops with
    invariants.
- `Fps` holds the `FPSCounter` class. Its window of frame durations is a `seq` that
  `Update` reassigns; the clock reading is a parameter.
- `Wrappers` holds `Option`, `Result` and `Outcome`.

## Model

| member | source | states |
|---|---|---|
| Kernels.Blank | gl.js:38-53 | A texture allocated with no data has the requested size, and every channel of every texel is zero. |
| Kernels.Clamp01 | simulation.js:332 | `clamp(v, 0, 1)` lies in [0, 1], leaves values already in [0, 1] unchanged, and saturates: below 0 gives 0, above 1 gives 1. |
| Kernels.Wrap | gl.js:55-57 | REPEAT wrapping maps any pixel coordinate to a texel index in [0, n), and leaves in-range coordinates where they are. |
| Kernels.TexCoordSelectsWrappedTexel | simulation.js:252-263 | getUV's coordinate lies strictly inside (0, 1), and the lookup at it (a texel centre, so NEAREST and LINEAR filtering agree) reaches exactly texel p mod n, for every integer p, negative ones included. |
| Kernels.LeftNeighbourOfEdgeWraps | simulation.js:261-263 | From column 0, the neighbour at offset (-1, 0) is column W-1 of the same row. |
| Kernels.ValueAtIsPeriodic | simulation.js:261-263 | valueAt is periodic with period W in x and H in y. |
| Kernels.QuarterTowardZero | simulation.js:196-197 | GLSL's integer `x / 4` truncates toward zero: \|q\| is the floor of \|x\|/4, and q has x's sign. |
| Kernels.ResetGrid | simulation.js:195-204 | After Reset, every cell has a = 1, da = 0, db = 1 and b ∈ {0, 1}. b = 1 exactly on the cells whose offset from the centre satisfies the seed test. |
| Kernels.SeedShape | simulation.js:197 | The seed test is equivalent to \|y\| <= 10 together with 2\|y\| - 10 <= x/4 <= 10. |
| Kernels.SeedIsBounded | simulation.js:197 | Seeded offsets lie within 10 rows and 43 columns of the centre. The centre row is seeded out to 43 columns either side. |
| Kernels.CentreIsSeeded | simulation.js:200-204 | The centre pixel is reset to (1, 1, 0, 1). |
| Kernels.BeginStepGrid | simulation.js:230-236 | BeginStep keeps every cell's (a, b) and sets (da, db) to (0, 0). |
| Kernels.DiffuseCell | simulation.js:284-286 | The Diffusion shader adds the same vector to (a, b) as to (da, db). |
| Kernels.FlatNeighbourhoodIsFixed | simulation.js:270-286 | If all eight neighbours carry the centre's (a, b), the diffuse term is zero and the cell is unchanged. |
| Kernels.DiffuseCellMovesTowardsMean | simulation.js:270-286 | The new a is the weighted neighbour mean of a. The new b moves a fraction diffuseRateB of the way from b towards the neighbour mean of b. |
| Kernels.NeighbourSumInRange | simulation.js:270-282 | With concentrations in [0, 1], each weighted neighbour sum lies between 0 and the total weight 1.5. |
| Kernels.DiffuseCellInUnitRange | simulation.js:265-287 | With concentrations in [0, 1] and diffuseRateB in [0, 1], one Diffusion invocation yields a and b in [0, 1]. |
| Kernels.DiffuseGrid | simulation.js:265-287 | The Diffusion pass keeps the texture's size, and each texel is the Diffusion shader's output at that pixel. |
| Kernels.DiffuseUniformIsFixed | simulation.js:265-287 | A field with uniform concentrations is a fixed point of the Diffusion pass. |
| Kernels.DiffusePreservesUnitRange | simulation.js:265-287 | With diffuseRateB in [0, 1], the Diffusion pass keeps every concentration in [0, 1]. |
| Kernels.ReactCell | simulation.js:315-335 | The output a and b are the old a and b plus the change, clamped to [0, 1], so they always lie in [0, 1]. The output (da, db) is the old deltas plus the unclamped change. Where no clamping happens, (a, b) moves by exactly the change. |
| Kernels.EmptyCellIsOnlyFed | simulation.js:320-329 | With a = b = 0, the change is exactly (feedRate, 0). |
| Kernels.FeedOnlyIsMonotone | simulation.js:315-335 | Under repeated Reaction, a cell with b = 0 keeps b = 0, and its a rises monotonically without leaving [0, 1]. |
| Kernels.ReactGrid | simulation.js:337-341 | The Reaction pass keeps the texture's size, applies the Reaction update to each texel, and leaves every concentration in [0, 1]. |
| Schedule.ApplyPass | simulation.js:149-153 | A compute pass writes a texture the size of the one it samples. |
| Schedule.DiffuseRepeated | simulation.js:136-137 | Any number of Diffusion passes keeps the texture's size. |
| Schedule.Step | simulation.js:134-141 | A step (BeginStep, diffuseRadius Diffusion passes, Reaction) keeps the texture's size. |
| Schedule.Steps | simulation.js:155-158 | Any number of steps keeps the texture's size. |
| Schedule.LastDiffused | simulation.js:134-141 | The texture step n's Reaction pass samples (step n's BeginStep and Diffusion passes applied to Steps(g, n - 1)) keeps the size, and Steps(g, n) is its Reaction. |
| Schedule.StepsInUnitRange | simulation.js:331-334 | After at least one step, every concentration lies in [0, 1], whatever the starting field. |
| Schedule.DiffuseRepeatedUniformIsFixed | simulation.js:136-137 | A uniform field is unchanged by any number of Diffusion passes. |
| Schedule.DiffuseRepeatedPreservesUnitRange | simulation.js:136-137 | With diffuseRateB in [0, 1], any number of Diffusion passes keeps concentrations in [0, 1]. |
| Schedule.UnseededIsEquilibrium | simulation.js:134-141 | The unseeded state (a, b) = (1, 0) is an equilibrium of a whole step, for every rate: every cell ends as (1, 0, 0, 0). |
| Schedule.StepSwapCount | simulation.js:134-141 | A step swaps the pair diffuseRadius + 2 times. |
| Schedule.UpdateSwapCount | simulation.js:167-175 | An update swaps (reset ? 1 : 0) + nStepsPerFrame·(diffuseRadius + 2) times, and its last event is the Display draw to the screen. |
| Schedule.Exchanged | simulation.js:128-132 | After k swaps, slot 0 holds the original slot k mod 2. |
| Schedule.ExchangedCompose | simulation.js:128-132 | a swaps followed by b swaps equal a + b swaps; in particular two swaps restore the original order. |
| Parameters.CheckPassCount | simulation.js:46-50 | The pass-count check accepts exactly the inputs that denote an integer in 1..8, returns that integer, and otherwise fails with the setter's own error. |
| Parameters.PassCountBoundaries | simulation.js:47 | 1 and 8 pass; 0, 9, 4.5, negative numbers and NaN are rejected. |
| Parameters.CheckRate | simulation.js:63-67 | feedRate and removeRate accept exactly the non-NaN, non-negative numeric values, and yield the numeric value. |
| Parameters.CheckUnitRate | simulation.js:80-84 | diffuseRateB accepts exactly the numeric values in [0, 1], inclusive. |
| Parameters.CheckBoolean | simulation.js:54-57 | useFancyRendering accepts exactly the booleans. |
| Parameters.OutcomeOf | simulation.js:47-48 | A setter completes exactly when its check succeeds, and throws otherwise. |
| Orchestrator.FrameBuffer.constructor | gl.js:38-67 | A new framebuffer's texture is the blank texture of the requested size. |
| Orchestrator.ElapsedIsProportional | simulation.js:140 | k steps of 0.016 add k·0.016 to the clock. |
| Orchestrator.IterationCount | simulation.js:156 | The count max(n, 0): n for n >= 0, and 0 for negative n. |
| Orchestrator.Simulation.Size | simulation.js:28-31 | The size getter returns the pair [width, height]. |
| Orchestrator.Simulation.constructor | simulation.js:97-126 | Two distinct blank framebuffers of the requested size. Nothing bound, uniforms at GL's zero, reset pending, clock 0, and the default parameters 4, false, 0.02, 0.06, 0.5 and 4. |
| Orchestrator.Simulation.ResetSimulation | simulation.js:33-36 | Only the pending-reset flag changes, and it becomes true, so calling it twice equals calling it once. |
| Orchestrator.Simulation.SetNStepsPerFrame | simulation.js:46-50 | The call throws exactly when the check fails and then stores nothing. Otherwise it stores the integer the input denotes. No other field changes. |
| Orchestrator.Simulation.SetUseFancyRendering | simulation.js:54-57 | Only a boolean is stored; anything else throws and leaves the field unchanged. |
| Orchestrator.Simulation.SetFeedRate | simulation.js:63-67 | A non-negative number is stored as its numeric value; NaN or a negative throws and leaves the field unchanged. |
| Orchestrator.Simulation.SetRemoveRate | simulation.js:71-75 | A non-negative number is stored as its numeric value; NaN or a negative throws and leaves the field unchanged. |
| Orchestrator.Simulation.SetDiffuseRateB | simulation.js:80-84 | A value in [0, 1] is stored; anything else throws and leaves the field unchanged. |
| Orchestrator.Simulation.SetDiffuseRadius | simulation.js:89-93 | An integer in 1..8 is stored; anything else throws and leaves the field unchanged. |
| Orchestrator.Simulation.UpdateUniforms | simulation.js:177-183 | The uniforms become the current feedRate, removeRate and diffuseRateB. |
| Orchestrator.Simulation.SwapBuffers | simulation.js:128-132 | The two slots are exchanged, [0] is bound for drawing and [1] for sampling, and one Swap is recorded. |
| Orchestrator.Simulation.ApplyShader | simulation.js:149-153 | One swap, then the new write buffer receives the kernel applied to the texture the previous pass wrote, which is now sampled. |
| Orchestrator.Simulation.DiffusionPasses | simulation.js:136-137 | The loop of #doSimulationStep: count Diffusion passes give the repeated Diffusion of the starting texture, and record count pass events. |
| Orchestrator.Simulation.DoSimulationStep | simulation.js:134-141 | A step writes Step of the previous texture into [0], leaves the diffused texture it reacted in [1], records the step's events and advances the clock by 0.016. |
| Orchestrator.Simulation.NextStep | simulation.js:156-157 | One turn of the simulateNSteps loop takes the state from i steps to i + 1 steps. |
| Orchestrator.Simulation.SimulateNSteps | simulation.js:155-158 | The loop `for (i = 0; i < n; i++)` runs max(n, 0) steps: [0] is Steps of the old [0], the clock advances by that many time steps, and the trace grows by that many step schedules. For n > 0, [0] is bound for drawing, [1] for sampling, and [1] holds the diffused texture the last step reacted. For n <= 0 the pair, both textures and the bindings are unchanged. |
| Orchestrator.Simulation.ForceResetSimulation | simulation.js:143-147 | Exactly one Reset pass: [0] holds the reset texture, [1] holds the old [0], the pair is swapped once and bound, the clock is 0 and the flag is cleared. |
| Orchestrator.Simulation.RenderResults | simulation.js:160-165 | No swap and no framebuffer written. The draw target becomes the screen, and the screen shows the bound texture in the current rendering mode. |
| Orchestrator.Simulation.PrepareFrame | simulation.js:167-171 | The first half of update: the uniforms are uploaded, then one Reset pass runs exactly when the flag was set, zeroing the clock, clearing the flag and leaving the old [0] in [1]. With no reset pending, the pair, both textures, the bindings and the clock are unchanged. |
| Orchestrator.Simulation.StepAndRender | simulation.js:173-174 | The second half of update: [0] is nStepsPerFrame steps from the old [0], [1] is the texture the last step reacted, the clock advances by nStepsPerFrame time steps, the trace grows by the step schedules and the Display draw, and the screen shows [1]. |
| Orchestrator.Simulation.Update | simulation.js:167-175 | [0] is nStepsPerFrame steps from the reset or the old texture, and [1] is the diffused texture the last of those steps reacted. The clock is (0 or old) + nStepsPerFrame·0.016, and the flag is cleared. The trace grows by exactly UpdateEvents. The screen shows [1], whose Reaction is [0]. |
| Fps.Slide | FPSCounter.js:18-19 | shift then push: the oldest entry is dropped, the rest move forward by one, the new entry is last, and a non-empty window keeps its length. |
| Fps.Zeros | FPSCounter.js:10 | The window starts as interval zeros. |
| Fps.FpsOf | FPSCounter.js:22-24 | The getter throws exactly on an empty window and is Infinite exactly when the sum is zero. Otherwise it is the reciprocal of the mean duration. |
| Fps.SlideAllLength | FPSCounter.js:14-20 | Whatever durations are recorded, updates keep a non-empty window's length, and make an empty window a single entry. |
| Fps.SlideAllContents | FPSCounter.js:14-20 | After updates with durations ds, a non-empty window w holds the newest \|w\| entries of w followed by ds, in the order recorded. |
| Fps.SlideNContents | FPSCounter.js:14-20 | After k updates of d, entry i holds the original entry i + k while that exists, and d otherwise (FIFO order). |
| Fps.ConstantWindowRate | FPSCounter.js:22-24 | A window of equal durations d > 0 reads exactly 1/d. |
| Fps.SteadyFrameRate | FPSCounter.js:14-24 | After at least interval updates with the same duration d > 0, the meter reads exactly 1/d. |
| Fps.FreshReading | FPSCounter.js:9-12 | A fresh counter reads Infinite, except with interval 0, where the getter throws. |
| Fps.FpsCounter.constructor | FPSCounter.js:9-12 | The window is interval zeros, and the last update time is the current clock reading. |
| Fps.FpsCounter.Update | FPSCounter.js:14-20 | The window slides by the time since the previous update, and the previous time becomes now. |

## Left out

- gl.js, ui.js, script.js and server.js are not part of this model. WebGL context and
  shader creation, uniform upload calls, the DOM, the frame driver and the static server
  are foreign APIs or I/O. A draw is modelled by its effect on the bound framebuffer's
  texture.
- The Display shader's colour curves are left out: they are float `pow` colour mapping.
  The Display pass is modelled as a `Picture` of the sampled texture and the rendering
  mode.
- Float rounding is left out: shader arithmetic is idealised as `real`, with no rounding,
  Infinity or NaN. getUV's float `mod` and the `ivec2(uv * resolution)` cast are exact.
  The rendering path from a fragment to its pixel is taken to be exact integer indexing.
- JavaScript numbers are idealised as `real` too: the simulated clock, the setter values,
  the FPS window, its sum and the FPS quotient carry no double rounding.
- Orchestrator.ElapsedIsProportional: k·0.016 is exact only over the reals. Adding 0.016
  k times in doubles accumulates rounding error.
- Fps.SteadyFrameRate: the reading 1/d is exact only over the reals. In doubles the
  sum of the window and the quotient are rounded.
- Kernels.ReactionChange: the `change` vector that the shader declares without an
  initial value is taken to start at (0, 0).
- JavaScript coercion is left out. A setter argument is a number, a NaN-producing value
  or a boolean; strings and objects are not modelled.
- Parameters.CheckRate: a setter argument cannot be ±Infinity. The source accepts
  Infinity for feedRate and removeRate (simulation.js:64, 72), and it rejects -Infinity
  as negative. The model has no input for either.
- Orchestrator.Simulation.SetNStepsPerFrame and SetDiffuseRadius: the source stores the
  raw argument, so `"4"` would be stored as a string. The model stores the integer it
  denotes.
- The error message texts are not modelled; each setter's error is an enumeration value.
- The `canvas`, `width`, `height` and parameter getters are plain field reads of the class.
  The canvas itself is not modelled.
- The viewport and the `resolution` and `buffer` uniform setup in the constructor are
  left out: they do not change texture contents.
- `clear` in `render()` (gl.js:95) is left out. It does clear the bound framebuffer's
  texture, but the full-viewport quad drawn next overwrites every texel, so a pass's
  result does not depend on it.
- The `GLCanvas` version that simulation.js is written against is not part of this
  model. The gl.js file beside it has no `createShader`, and its `set shader` compiles a
  fresh program on every assignment (gl.js:105-123), so uniforms set on one program
  would not reach the next. The model follows simulation.js: five programs compiled once
  (simulation.js:109-113), selected by `shader =` (simulation.js:150, 161, 178, 181),
  whose uniforms persist between frames.
- Orchestrator.Simulation.SimulateNSteps: the default argument `n = 10` is not modelled,
  so every call passes n explicitly.
- Orchestrator.Simulation.constructor: the default size 400×400 is not modelled, and the
  width and height must be positive (a zero-sized texture is not a torus).
- Fps.FpsCounter.constructor: the default interval 20 is not modelled. `Date.now() / 1000`
  is passed in as `now`. The interval is a `nat`, so the RangeError that
  `new Array(interval)` throws for a negative or fractional interval
  (FPSCounter.js:10) is not modelled.
- The display shows `frameBuffers[1]` after an update. That is the input of the frame's
  final Reaction pass, not its output, so the picture lags one pass behind the state.
  The model states this as the code does (Update's last two ensures clauses) without
  judging it.
- Before the first `update()`, the rate uniforms are GL's zero defaults. The model
  starts them at zero, so a direct `simulateNSteps` call before `update()` uses rates of 0.
