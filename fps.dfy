/**
 * The frame-rate meter: a sliding window of the last frame durations (in seconds),
 * and the rate they imply, the window's length divided by its sum.
 *
 * The wall clock is a parameter: the constructor and `Update` receive the time
 * (in seconds) that the source reads from `Date.now() / 1000`.
 */
module Fps {
  import opened Wrappers

  /** The value the FPS getter returns when it does not throw. A zero sum divides to
      +Infinity in JavaScript; any other sum gives a finite quotient. */
  datatype Reading = Rate(perSecond: real) | Infinite

  /** `reduce` without a seed on an empty array throws a TypeError. */
  datatype FpsError = EmptyWindow

  /** The left fold `w.reduce((a, b) => a + b)` over a non-empty window, extended
      with 0 for the empty one (which the getter never folds). */
  function Sum(w: seq<real>): real {
    if w == [] then 0.0 else Sum(w[..|w| - 1]) + w[|w| - 1]
  }

  /** One update of the window: `shift()` drops the oldest entry (and does nothing to
      an empty array), then `push(d)` appends the newest. */
  function Slide(w: seq<real>, d: real): (r: seq<real>)
    ensures |r| == if w == [] then 1 else |w|
    ensures r[|r| - 1] == d
    ensures w != [] ==> r[..|r| - 1] == w[1..]
  {
    (if w == [] then [] else w[1..]) + [d]
  }

  /** k updates of the window, each with the frame duration d. */
  function SlideN(w: seq<real>, d: real, k: nat): seq<real> {
    if k == 0 then w else Slide(SlideN(w, d, k - 1), d)
  }

  /** The window a counter starts with: `interval` zeros. */
  function Zeros(n: nat): (r: seq<real>)
    ensures |r| == n
    ensures forall i | 0 <= i < n :: r[i] == 0.0
  {
    seq(n, _ => 0.0)
  }

  /** The FPS getter: length over sum. It throws on an empty window, is infinite when
      the durations sum to zero, and otherwise is the reciprocal of the mean duration. */
  function FpsOf(w: seq<real>): (r: Result<Reading, FpsError>)
    ensures r.Failure? <==> w == []
    ensures r.Success? && r.value == Infinite <==> w != [] && Sum(w) == 0.0
    ensures r.Success? && r.value.Rate? ==> r.value.perSecond * (Sum(w) / |w| as real) == 1.0
  {
    if w == [] then Failure(EmptyWindow)
    else if Sum(w) == 0.0 then Success(Infinite)
    else Success(Rate(|w| as real / Sum(w)))
  }

  /** Updates of the window with the frame durations ds, oldest first. */
  function SlideAll(w: seq<real>, ds: seq<real>): seq<real>
    decreases |ds|
  {
    if ds == [] then w else SlideAll(Slide(w, ds[0]), ds[1..])
  }

  /** Whatever the durations recorded, updates never change the window length once it
      is non-empty, and make an empty window a single entry. */
  lemma {:induction false} SlideAllLength(w: seq<real>, ds: seq<real>)
    ensures |SlideAll(w, ds)| == if w == [] && ds != [] then 1 else |w|
    decreases |ds|
  {
    if ds != [] {
      SlideAllLength(Slide(w, ds[0]), ds[1..]);
    }
  }

  /** A non-empty window after updates with ds holds the newest |w| entries of w + ds:
      the durations are kept in the order they were recorded. */
  lemma {:induction false} SlideAllContents(w: seq<real>, ds: seq<real>)
    requires w != []
    ensures SlideAll(w, ds) == (w + ds)[|ds|..]
    decreases |ds|
  {
    if ds != [] {
      var next := Slide(w, ds[0]);
      SlideAllContents(next, ds[1..]);
      assert next + ds[1..] == (w + ds)[1..];
    }
  }

  /** After k updates with the same duration d, the last min(k, |window|) entries are
      all d, and the older entries are the newest of the original window. */
  lemma {:induction false} SlideNContents(w: seq<real>, d: real, k: nat)
    requires w != []
    ensures |SlideN(w, d, k)| == |w|
    ensures forall i | 0 <= i < |w| ::
      SlideN(w, d, k)[i] == if i + k < |w| then w[i + k] else d
  {
    if k > 0 {
      SlideNContents(w, d, k - 1);
      var prev := SlideN(w, d, k - 1);
      var next := SlideN(w, d, k);
      assert next == Slide(prev, d);
      assert |next| == |prev| == |w|;
      forall i | 0 <= i < |w|
        ensures next[i] == if i + k < |w| then w[i + k] else d
      {
        if i < |w| - 1 {
          calc {
            next[i];
            next[..|next| - 1][i];
            prev[1..][i];
            prev[i + 1];
          }
        }
      }
    }
  }

  /** A window of n copies of d sums to n·d. */
  lemma {:induction false} SumConstant(w: seq<real>, d: real)
    requires forall i | 0 <= i < |w| :: w[i] == d
    ensures Sum(w) == |w| as real * d
  {
    if w != [] {
      SumConstant(w[..|w| - 1], d);
    }
  }

  /** Once as many frames of duration d > 0 as the window holds have been recorded,
      the meter reads exactly 1/d frames per second. */
  lemma SteadyFrameRate(w: seq<real>, d: real, k: nat)
    requires w != [] && k >= |w| && d > 0.0
    ensures FpsOf(SlideN(w, d, k)) == Success(Rate(1.0 / d))
  {
    SlideNContents(w, d, k);
    ConstantWindowRate(SlideN(w, d, k), d);
  }

  /** A non-empty window of equal durations d > 0 reads 1/d. */
  lemma ConstantWindowRate(s: seq<real>, d: real)
    requires s != [] && d > 0.0
    requires forall i | 0 <= i < |s| :: s[i] == d
    ensures FpsOf(s) == Success(Rate(1.0 / d))
  {
    SumConstant(s, d);
    var n := |s| as real;
    QuotientOfProduct(n, d);
    assert Sum(s) == n * d;
    assert FpsOf(s) == Success(Rate(n / Sum(s)));
  }

  lemma QuotientOfProduct(n: real, d: real)
    requires n > 0.0 && d > 0.0
    ensures n * d > 0.0
    ensures n / (n * d) == 1.0 / d
  {
    var p := n * d;
    assert p > 0.0;
    assert (n / p) * d == 1.0 by {
      assert n / p * p == n;
    }
  }

  /** A fresh counter reads Infinite (its window is all zeros), except with interval
      0, where the getter throws. */
  lemma FreshReading(interval: nat)
    ensures interval == 0 ==> FpsOf(Zeros(interval)) == Failure(EmptyWindow)
    ensures interval > 0 ==> FpsOf(Zeros(interval)) == Success(Infinite)
  {
    SumConstant(Zeros(interval), 0.0);
  }

  /** The counter: the window of frame durations and the time of the last update. */
  class FpsCounter {
    var deltaTimeBuffer: seq<real>
    var previousTime: real

    /** `interval` zero durations; the clock reading is taken now. */
    constructor (interval: nat, now: real)
      ensures deltaTimeBuffer == Zeros(interval) && previousTime == now
    {
      deltaTimeBuffer := Zeros(interval);
      previousTime := now;
    }

    /** Records the time since the previous update as the newest duration. */
    method Update(now: real)
      modifies this
      ensures previousTime == now
      ensures deltaTimeBuffer == Slide(old(deltaTimeBuffer), now - old(previousTime))
    {
      var deltaTime := now - previousTime;
      previousTime := now;
      var rest := if deltaTimeBuffer == [] then [] else deltaTimeBuffer[1..];
      deltaTimeBuffer := rest + [deltaTime];
    }

    /** The FPS getter; FpsOf states what it reads. */
    function FPS(): Result<Reading, FpsError>
      reads this
    {
      FpsOf(deltaTimeBuffer)
    }
  }
}
