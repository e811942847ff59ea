/**
 * The fixed order of shader passes the orchestrator issues, as a sequence of GPU
 * events, and the grid that a sequence of passes computes.
 */
module Schedule {
  import opened Kernels

  /** The five shader programs compiled at construction. */
  datatype Shader = ResetShader | BeginStepShader | DiffusionShader | ReactionShader | DisplayShader

  /** Where a draw call writes: the bound ping-pong buffer, or the screen (framebuffer null). */
  datatype Target = Offscreen | Screen

  /** What the orchestrator asks of the GPU: exchange the ping-pong pair, or draw a
      full-screen quad with a shader. */
  datatype Event = Swap | Draw(shader: Shader, target: Target)

  /** The uniform values uploaded to the reaction and diffusion programs. */
  datatype Uniforms = Uniforms(feedRate: real, removeRate: real, diffuseRateB: real)

  // ---------------------------------------------------------------------------
  // The grid a pass computes
  // ---------------------------------------------------------------------------

  /** The texture one compute pass writes, given the texture it samples. */
  function ApplyPass(s: Shader, g: Grid, u: Uniforms): (r: Grid)
    requires g.Valid() && s != DisplayShader
    ensures r.Fits(g.width, g.height)
  {
    match s
    case ResetShader => ResetGrid(g.width, g.height)
    case BeginStepShader => BeginStepGrid(g)
    case DiffusionShader => DiffuseGrid(g, u.diffuseRateB)
    case ReactionShader => ReactGrid(g, u.feedRate, u.removeRate)
  }

  /** The grid after n Diffusion passes. */
  function DiffuseRepeated(g: Grid, n: nat, diffuseRateB: real): (r: Grid)
    requires g.Valid()
    ensures r.Fits(g.width, g.height)
  {
    if n == 0 then g else DiffuseGrid(DiffuseRepeated(g, n - 1, diffuseRateB), diffuseRateB)
  }

  /** The grid after one simulation step: BeginStep, `radius` Diffusion passes, React. */
  function Step(g: Grid, radius: nat, u: Uniforms): (r: Grid)
    requires g.Valid()
    ensures r.Fits(g.width, g.height)
  {
    ReactGrid(DiffuseRepeated(BeginStepGrid(g), radius, u.diffuseRateB), u.feedRate, u.removeRate)
  }

  /** The grid after n simulation steps. */
  function Steps(g: Grid, n: nat, radius: nat, u: Uniforms): (r: Grid)
    requires g.Valid()
    ensures r.Fits(g.width, g.height)
  {
    if n == 0 then g else Step(Steps(g, n - 1, radius, u), radius, u)
  }

  /** The texture the Reaction pass of step n samples: the field after step n's BeginStep
      and Diffusion passes. Step n is the Reaction of it. */
  function LastDiffused(g: Grid, n: nat, radius: nat, u: Uniforms): (r: Grid)
    requires g.Valid() && n > 0
    ensures r.Fits(g.width, g.height)
    ensures Steps(g, n, radius, u) == ReactGrid(r, u.feedRate, u.removeRate)
  {
    DiffuseRepeated(BeginStepGrid(Steps(g, n - 1, radius, u)), radius, u.diffuseRateB)
  }

  /** Whatever the grid it starts from, a simulation step ends with every concentration
      in [0, 1]: the Reaction pass clamps what it writes. */
  lemma StepsInUnitRange(g: Grid, n: nat, radius: nat, u: Uniforms)
    requires g.Valid() && n > 0
    ensures InUnitRange(Steps(g, n, radius, u))
  {
  }

  /** Any number of Diffusion passes leaves a field of uniform concentrations as it is. */
  lemma {:induction false} DiffuseRepeatedUniformIsFixed(g: Grid, n: nat, diffuseRateB: real)
    requires g.Valid() && UniformConcentrations(g)
    ensures DiffuseRepeated(g, n, diffuseRateB) == g
  {
    if n > 0 {
      DiffuseRepeatedUniformIsFixed(g, n - 1, diffuseRateB);
      DiffuseUniformIsFixed(g, diffuseRateB);
    }
  }

  /** Any number of Diffusion passes keeps concentrations in [0, 1] when diffuseRateB is. */
  lemma {:induction false} DiffuseRepeatedPreservesUnitRange(g: Grid, n: nat, diffuseRateB: real)
    requires g.Valid() && InUnitRange(g)
    requires 0.0 <= diffuseRateB <= 1.0
    ensures InUnitRange(DiffuseRepeated(g, n, diffuseRateB))
  {
    if n > 0 {
      DiffuseRepeatedPreservesUnitRange(g, n - 1, diffuseRateB);
      DiffusePreservesUnitRange(DiffuseRepeated(g, n - 1, diffuseRateB), diffuseRateB);
    }
  }

  /** Every cell holds only species A at full concentration. */
  ghost predicate Unseeded(g: Grid)
    requires g.Valid()
  {
    forall y, x | 0 <= y < g.height && 0 <= x < g.width ::
      g.rows[y][x].a == 1.0 && g.rows[y][x].b == 0.0
  }

  /** The unseeded state (a, b) = (1, 0) is an equilibrium of a whole simulation step,
      whatever the rates: diffusion finds no gradient and the reaction no change. */
  lemma {:induction false} UnseededIsEquilibrium(g: Grid, radius: nat, u: Uniforms)
    requires g.Valid() && Unseeded(g)
    ensures forall y, x | 0 <= y < g.height && 0 <= x < g.width ::
      Step(g, radius, u).rows[y][x] == Cell(1.0, 0.0, 0.0, 0.0)
  {
    var begun := BeginStepGrid(g);
    assert UniformConcentrations(begun);
    DiffuseRepeatedUniformIsFixed(begun, radius, u.diffuseRateB);
    var diffused := DiffuseRepeated(begun, radius, u.diffuseRateB);
    var r := ReactGrid(diffused, u.feedRate, u.removeRate);
    assert r == Step(g, radius, u);
    var rest := Cell(1.0, 0.0, 0.0, 0.0);
    assert ReactCell(rest, u.feedRate, u.removeRate) == rest by {
      assert ReactionChange(rest, u.feedRate, u.removeRate) == Vec2(0.0, 0.0);
    }
    forall y, x | 0 <= y < g.height && 0 <= x < g.width
      ensures r.rows[y][x] == rest
    {
      assert diffused.rows[y][x] == begun.rows[y][x] == rest;
    }
  }

  // ---------------------------------------------------------------------------
  // The event sequence of the pass schedule
  // ---------------------------------------------------------------------------

  /** #applyShader: one swap, then one draw into the new write buffer. */
  function PassEvents(s: Shader): seq<Event> {
    [Swap, Draw(s, Offscreen)]
  }

  /** es, n times over. */
  function Repeat(es: seq<Event>, n: nat): seq<Event> {
    if n == 0 then [] else Repeat(es, n - 1) + es
  }

  /** #doSimulationStep: BeginStep, `radius` Diffusion passes, React. */
  function StepEvents(radius: nat): seq<Event> {
    PassEvents(BeginStepShader) + Repeat(PassEvents(DiffusionShader), radius) + PassEvents(ReactionShader)
  }

  /** update(): an optional Reset pass, `steps` simulation steps, then Display to the screen. */
  function UpdateEvents(reset: bool, steps: nat, radius: nat): seq<Event> {
    (if reset then PassEvents(ResetShader) else []) + Repeat(StepEvents(radius), steps)
      + [Draw(DisplayShader, Screen)]
  }

  /** The number of buffer swaps in an event sequence. */
  function SwapCount(es: seq<Event>): nat {
    if es == [] then 0 else SwapCount(es[..|es| - 1]) + (if es[|es| - 1] == Swap then 1 else 0)
  }

  lemma {:induction false} SwapCountAppend(a: seq<Event>, b: seq<Event>)
    ensures SwapCount(a + b) == SwapCount(a) + SwapCount(b)
    decreases |b|
  {
    if b != [] {
      assert (a + b)[..|a + b| - 1] == a + b[..|b| - 1];
      SwapCountAppend(a, b[..|b| - 1]);
    } else {
      assert a + b == a;
    }
  }

  lemma {:induction false} SwapCountRepeat(es: seq<Event>, n: nat)
    ensures SwapCount(Repeat(es, n)) == n * SwapCount(es)
  {
    if n > 0 {
      SwapCountRepeat(es, n - 1);
      SwapCountAppend(Repeat(es, n - 1), es);
    }
  }

  /** Each simulation step swaps diffuseRadius + 2 times. */
  lemma StepSwapCount(radius: nat)
    ensures SwapCount(StepEvents(radius)) == radius + 2
  {
    var b, d, r := PassEvents(BeginStepShader), Repeat(PassEvents(DiffusionShader), radius), PassEvents(ReactionShader);
    SwapCountAppend(b + d, r);
    SwapCountAppend(b, d);
    SwapCountRepeat(PassEvents(DiffusionShader), radius);
    assert SwapCount(PassEvents(DiffusionShader)) == 1;
  }

  /** An update swaps once for a pending reset and diffuseRadius + 2 times per step;
      its final event is the Display draw to the screen, which does not swap. */
  lemma UpdateSwapCount(reset: bool, steps: nat, radius: nat)
    ensures SwapCount(UpdateEvents(reset, steps, radius)) ==
      (if reset then 1 else 0) + steps * (radius + 2)
    ensures UpdateEvents(reset, steps, radius)[|UpdateEvents(reset, steps, radius)| - 1]
      == Draw(DisplayShader, Screen)
  {
    var pre := if reset then PassEvents(ResetShader) else [];
    var body := Repeat(StepEvents(radius), steps);
    SwapCountAppend(pre + body, [Draw(DisplayShader, Screen)]);
    SwapCountAppend(pre, body);
    SwapCountRepeat(StepEvents(radius), steps);
    StepSwapCount(radius);
    assert SwapCount(pre) == if reset then 1 else 0;
  }

  /** The order of a ping-pong pair after k swaps: two swaps restore it. */
  function Exchanged<T>(pair: seq<T>, k: nat): (r: seq<T>)
    requires |pair| == 2
    ensures |r| == 2
    ensures r[0] == pair[k % 2] && r[1] == pair[1 - k % 2]
  {
    if k % 2 == 0 then pair else [pair[1], pair[0]]
  }

  /** Swapping a pair a times and then b times is swapping it a + b times. */
  lemma ExchangedCompose<T>(pair: seq<T>, a: nat, b: nat)
    requires |pair| == 2
    ensures Exchanged(Exchanged(pair, a), b) == Exchanged(pair, a + b)
  {
  }

  /** Concatenation of event sequences is associative. */
  lemma AppendAssoc(a: seq<Event>, b: seq<Event>, c: seq<Event>)
    ensures (a + b) + c == a + (b + c)
  {
  }
}
