/**
 * The idle classifier of the service.
 *
 * The host's tick counter and the time of the last input are unsigned 32-bit
 * millisecond counts; the service calls the host active while the time since
 * the last input is below the display timeout.
 */
module Activity {

  const TickModulus: int := 0x1_0000_0000

  /** A value of the host's 32-bit millisecond tick counter. */
  type Tick = x: int | 0 <= x < TickModulus

  /**
   * `is_system_active` as written: the idle time is the plain integer
   * difference of the two counter values, with no reduction modulo 2^32.
   */
  function IsSystemActive(currentTick: Tick, lastInput: Tick, timeoutMs: int): (active: bool)
    ensures currentTick < lastInput && timeoutMs >= 0 ==> active
    ensures currentTick >= lastInput ==> (active <==> IdleTime(currentTick, lastInput) < timeoutMs)
  {
    var idleTime := currentTick - lastInput;
    idleTime < timeoutMs
  }

  /** The time since the last input as unsigned 32-bit subtraction computes it. */
  function IdleTime(currentTick: Tick, lastInput: Tick): (idle: nat)
    ensures idle < TickModulus
    ensures currentTick >= lastInput ==> idle == currentTick - lastInput
  {
    (currentTick - lastInput) % TickModulus
  }

  /** The classifier with wrap-around subtraction. */
  function IsSystemActiveWrapped(currentTick: Tick, lastInput: Tick, timeoutMs: int): (active: bool)
    ensures currentTick >= lastInput ==> active == IsSystemActive(currentTick, lastInput, timeoutMs)
  {
    IdleTime(currentTick, lastInput) < timeoutMs
  }

  /**
   * Whatever the counter value at the last input, when less than 2^32 ms have
   * really elapsed the wrapped idle time is exactly the elapsed time, so the
   * classification is correct across a counter rollover.
   */
  lemma WrappedIdleIsElapsed(lastInput: Tick, elapsed: nat, timeoutMs: int)
    requires elapsed < TickModulus
    ensures IdleTime((lastInput + elapsed) % TickModulus, lastInput) == elapsed
    ensures IsSystemActiveWrapped((lastInput + elapsed) % TickModulus, lastInput, timeoutMs) <==> elapsed < timeoutMs
  {
    var cur := (lastInput + elapsed) % TickModulus;
    if lastInput + elapsed < TickModulus {
      assert cur == lastInput + elapsed;
    } else {
      assert cur == lastInput + elapsed - TickModulus;
      assert cur - lastInput == elapsed - TickModulus;
      assert (elapsed - TickModulus) % TickModulus == elapsed;
    }
  }

  /**
   * As written, a rollover between the last input and now yields a negative
   * idle time: 965536 ms after an input at tick 0xFFFF_0000, with the default
   * 900000 ms timeout, the host is still reported active.
   */
  lemma RolloverMisclassified()
    ensures IsSystemActive(900000, 0xFFFF_0000, 900000)
    ensures !IsSystemActiveWrapped(900000, 0xFFFF_0000, 900000)
  {
    WrappedIdleIsElapsed(0xFFFF_0000, 965536, 900000);
  }
}
