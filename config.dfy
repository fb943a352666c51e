/** Configuration of the accessory as the host hands it over: a JSON object
    whose fields are read with JavaScript's `||` defaulting, and the way the
    runtime's timer turns a configured duration into a delay. */
module JsConfig {

  /** The JavaScript values a configuration field can hold (numbers are
      kept integral; objects and arrays are not modelled). */
  datatype JsValue = Undefined | Null | Bool(b: bool) | Num(n: int) | Str(s: string)

  /** JavaScript truthiness: `undefined`, `null`, `false`, `0` and `""` are falsy. */
  predicate Truthy(v: JsValue) {
    match v
    case Undefined => false
    case Null => false
    case Bool(b) => b
    case Num(n) => n != 0
    case Str(s) => s != ""
  }

  /** `v || d`: the left operand when it is truthy, the right one otherwise. */
  function Or(v: JsValue, d: JsValue): (r: JsValue)
    ensures r == v || r == d
    ensures Truthy(r) <==> Truthy(v) || Truthy(d)
    ensures Truthy(v) ==> r == v
    ensures !Truthy(v) ==> r == d
  {
    if Truthy(v) then v else d
  }

  const DEFAULT_NAME: JsValue := Str("Garage Door")
  const DEFAULT_GPIO_PIN: JsValue := Num(18)
  const DEFAULT_PULSE_DURATION: JsValue := Num(1000)

  /** The three fields the accessory reads from its configuration object;
      a field missing from the object is `Undefined`. */
  datatype Config = Config(name: JsValue, gpioPin: JsValue, pulseDuration: JsValue)

  /** The settings the constructor keeps: each field, or its default when the
      configured value is falsy. */
  function WithDefaults(c: Config): (r: Config)
    ensures Truthy(r.name) && Truthy(r.gpioPin) && Truthy(r.pulseDuration)
    ensures r.name == (if Truthy(c.name) then c.name else DEFAULT_NAME)
    ensures r.gpioPin == (if Truthy(c.gpioPin) then c.gpioPin else DEFAULT_GPIO_PIN)
    ensures r.pulseDuration == (if Truthy(c.pulseDuration) then c.pulseDuration else DEFAULT_PULSE_DURATION)
  {
    Config(Or(c.name, DEFAULT_NAME), Or(c.gpioPin, DEFAULT_GPIO_PIN), Or(c.pulseDuration, DEFAULT_PULSE_DURATION))
  }

  /** Defaulting is idempotent: settings already defaulted are kept as they are. */
  lemma WithDefaultsIdempotent(c: Config)
    ensures WithDefaults(WithDefaults(c)) == WithDefaults(c)
  {
  }

  /** Because the defaulting uses `||`, a configured 0 (or "" or false) is
      replaced by the default exactly like a missing field. */
  lemma ZeroFallsBackToDefault(name: JsValue, falsy: JsValue)
    requires !Truthy(falsy)
    ensures WithDefaults(Config(name, falsy, falsy)).gpioPin == Num(18)
    ensures WithDefaults(Config(name, falsy, falsy)).pulseDuration == Num(1000)
    ensures WithDefaults(Config(falsy, falsy, falsy)) == WithDefaults(Config(Undefined, Undefined, Undefined))
  {
  }

  /** The largest delay the runtime's timers accept (2^31 - 1 ms). */
  const TIMEOUT_MAX: int := 0x7FFF_FFFF

  /** The delay, in ms, that the runtime's `setTimeout` applies for a given
      duration argument: the argument coerced to a number, replaced by 1 when
      it is below 1, above TIMEOUT_MAX or not a number (`true` coerces to 1,
      `false` and `null` to 0). */
  function TimerDelay(v: JsValue): (ms: int)
    ensures 1 <= ms <= TIMEOUT_MAX
    ensures v.Num? && 1 <= v.n <= TIMEOUT_MAX ==> ms == v.n
    ensures v.Num? && !(1 <= v.n <= TIMEOUT_MAX) ==> ms == 1
    ensures !v.Num? ==> ms == 1
  {
    match v
    case Num(n) => if 1 <= n <= TIMEOUT_MAX then n else 1
    case _ => 1
  }

  /** With nothing configured the pulse lasts 1000 ms. */
  lemma DefaultPulseDelay(c: Config)
    requires !Truthy(c.pulseDuration)
    ensures TimerDelay(WithDefaults(c).pulseDuration) == 1000
  {
  }
}
