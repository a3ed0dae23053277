/** Instants as Go's `time` and the MongoDB driver see them. An instant is an
    integer number of nanoseconds since the Unix epoch. */
module Clock {

  const Second: int := 1_000_000_000
  const Millisecond: int := 1_000_000
  const Minute: int := 60 * Second
  const Hour: int := 60 * Minute
  const Day: int := 24 * Hour

  /** `t.Unix()`: whole seconds since the epoch, rounded down. */
  function Unix(t: int): (s: int)
    ensures s * Second <= t < s * Second + Second
  {
    t / Second
  }

  /** `primitive.NewDateTimeFromTime(t)`: whole milliseconds, rounded down. */
  function Millis(t: int): (ms: int)
    ensures ms * Millisecond <= t < ms * Millisecond + Millisecond
  {
    t / Millisecond
  }

  /** `DateTime.Time()`: the instant a stored date stands for. */
  function FromMillis(ms: int): (t: int)
    ensures Millis(t) == ms
  {
    ms * Millisecond
  }

  /** Adding whole seconds to an instant adds them to its `Unix()` value. */
  lemma UnixShift(t: int, k: int)
    ensures Unix(t + k * Second) == Unix(t) + k
  {
    var s := Unix(t);
    assert (s + k) * Second <= t + k * Second < (s + k) * Second + Second;
  }

  /** A stored date and a token's `exp` claim taken from the same instant agree
      to the second. */
  lemma UnixOfMillis(t: int)
    ensures Unix(t) == Millis(t) / 1000
  {
    var ms := Millis(t);
    var s := ms / 1000;
    assert s * 1000 <= ms < s * 1000 + 1000;
    assert s * Second == s * 1000 * Millisecond;
    assert s * Second <= t;
    assert ms + 1 <= s * 1000 + 1000;
    assert t < (ms + 1) * Millisecond <= (s * 1000 + 1000) * Millisecond;
  }

  /** Reading a stored date back gives an instant no later than the one stored,
      and less than a millisecond earlier. */
  lemma FromMillisOfMillis(t: int)
    ensures t - Millisecond < FromMillis(Millis(t)) <= t
  {
  }
}
