/**
 * The domain checks of the six Simulation parameter setters. A setter either rejects
 * its argument (the source throws an Error) or yields the value to store.
 */
module Parameters {
  import opened Wrappers

  /** A value handed to a setter, told apart only as far as the checks can tell:
      a number, anything whose numeric conversion is NaN, or a boolean. */
  datatype Input = Number(value: real) | NotANumber | Boolean(flag: bool)

  /** Which setter threw. */
  datatype SetterError =
    | StepsPerFrameError
    | BooleanError
    | FeedRateError
    | RemoveRateError
    | DiffuseRateBError
    | DiffuseRadiusError

  /** JavaScript's unary `+v`; None stands for NaN. A boolean converts to 1 or 0. */
  function ToNumber(v: Input): Option<real> {
    match v
    case Number(x) => Some(x)
    case NotANumber => None
    case Boolean(b) => Some(if b then 1.0 else 0.0)
  }

  /** v converts to the integer k. */
  predicate Denotes(v: Input, k: int) {
    ToNumber(v) == Some(k as real)
  }

  /** The integer range both pass counts must lie in. */
  const MinPassCount: int := 1
  const MaxPassCount: int := 8

  /** The check shared by nStepsPerFrame and diffuseRadius: NaN, `<= 0`, `> 8` and
      `~~v !== +v` reject. On (0, 8] `~~` truncates, so the last test rejects exactly
      the non-integers. */
  function CheckPassCount(v: Input, err: SetterError): (r: Result<int, SetterError>)
    ensures r.Success? <==>
      exists k: int | MinPassCount <= k <= MaxPassCount :: Denotes(v, k)
    ensures r.Success? ==> Denotes(v, r.value)
    ensures r.Failure? ==> r.error == err
  {
    match ToNumber(v)
    case None => Failure(err)
    case Some(x) =>
      if x <= 0.0 || x > 8.0 || x.Floor as real != x then Failure(err)
      else assert Denotes(v, x.Floor); Success(x.Floor)
  }

  /** The check of feedRate and removeRate: NaN and negatives reject; the numeric value is stored. */
  function CheckRate(v: Input, err: SetterError): (r: Result<real, SetterError>)
    ensures r.Success? <==> ToNumber(v).Some? && ToNumber(v).value >= 0.0
    ensures r.Success? ==> ToNumber(v) == Some(r.value)
    ensures r.Failure? ==> r.error == err
  {
    match ToNumber(v)
    case None => Failure(err)
    case Some(x) => if x < 0.0 then Failure(err) else Success(x)
  }

  /** The check of diffuseRateB: NaN and anything outside [0, 1] reject. */
  function CheckUnitRate(v: Input): (r: Result<real, SetterError>)
    ensures r.Success? <==> ToNumber(v).Some? && 0.0 <= ToNumber(v).value <= 1.0
    ensures r.Success? ==> ToNumber(v) == Some(r.value)
    ensures r.Failure? ==> r.error == DiffuseRateBError
  {
    match ToNumber(v)
    case None => Failure(DiffuseRateBError)
    case Some(x) => if x < 0.0 || x > 1.0 then Failure(DiffuseRateBError) else Success(x)
  }

  /** The check of useFancyRendering: only a boolean is accepted. */
  function CheckBoolean(v: Input): (r: Result<bool, SetterError>)
    ensures r.Success? <==> v.Boolean?
    ensures r.Success? ==> v == Boolean(r.value)
    ensures r.Failure? ==> r.error == BooleanError
  {
    match v
    case Boolean(b) => Success(b)
    case _ => Failure(BooleanError)
  }

  /** The pass-count check on the boundary cases: 1 and 8 pass; 0, 9, 4.5, a negative
      number and NaN are rejected. */
  lemma {:induction false} PassCountBoundaries(err: SetterError)
    ensures CheckPassCount(Number(1.0), err) == Success(1)
    ensures CheckPassCount(Number(8.0), err) == Success(8)
    ensures CheckPassCount(Number(0.0), err).Failure?
    ensures CheckPassCount(Number(9.0), err).Failure?
    ensures CheckPassCount(Number(4.5), err).Failure?
    ensures CheckPassCount(Number(-3.0), err).Failure?
    ensures CheckPassCount(NotANumber, err).Failure?
  {
    assert (4.5).Floor == 4;
  }

  /** What a setter reports for a checked argument: Pass, or the Error it throws. */
  function OutcomeOf<T>(checked: Result<T, SetterError>): (r: Outcome<SetterError>)
    ensures r.Pass? <==> checked.Success?
  {
    match checked
    case Success(_) => Pass
    case Failure(e) => Fail(e)
  }

  /** The value a setter leaves stored: the checked value, or the current one on rejection. */
  function StoredValue<T>(checked: Result<T, SetterError>, current: T): T {
    match checked
    case Success(v) => v
    case Failure(_) => current
  }
}
