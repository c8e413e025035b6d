/**
 * The fixed-window limiter in front of the token checks (auth.js lines 33-44): per
 * client address, a count and the time its window opened. A window lasts one hour
 * and admits ten attempts; every attempt is counted, rejected ones included.
 */
module RateLimit {
  import opened Wrappers

  /** Length of a window, in milliseconds. */
  const WindowMs: int := 3600000
  /** Attempts a window admits. */
  const MaxAttempts: nat := 10

  /** A limiter entry: `{count, timestamp}`. */
  datatype Window = Window(count: nat, timestamp: int)

  /** `now` still falls in the window opened at `w.timestamp` (a clock that went back counts as inside). */
  predicate InWindow(w: Window, now: int)
  {
    now - w.timestamp < WindowMs
  }

  /**
   * One attempt at time `now` against the client's entry: the new entry, and whether
   * the attempt is admitted.
   */
  function Admit(entry: Option<Window>, now: int): (r: (Window, bool))
    ensures r.0.count >= 1
    ensures r.1 <==> r.0.count <= MaxAttempts
    ensures entry.None? || !InWindow(entry.value, now) ==> r.0 == Window(1, now) && r.1
    ensures entry.Some? && InWindow(entry.value, now) ==>
      r.0.timestamp == entry.value.timestamp && r.0.count == entry.value.count + 1
  {
    match entry
    case None => (Window(1, now), true)
    case Some(w) =>
      if now - w.timestamp < WindowMs then
        var next := w.(count := w.count + 1);
        (next, next.count <= MaxAttempts)
      else
        (Window(1, now), true)
  }

  /** The entry after a run of attempts at the given times. */
  function AfterAttempts(entry: Option<Window>, times: seq<int>): Option<Window>
    decreases |times|
  {
    if times == [] then entry else AfterAttempts(Some(Admit(entry, times[0]).0), times[1..])
  }

  /** Which of a run of attempts at the given times are admitted. */
  function Attempts(entry: Option<Window>, times: seq<int>): (admitted: seq<bool>)
    ensures |admitted| == |times|
    decreases |times|
  {
    if times == [] then []
    else
      var (w, ok) := Admit(entry, times[0]);
      [ok] + Attempts(Some(w), times[1..])
  }

  /**
   * Inside one window every attempt is counted: the `k`-th further attempt is admitted
   * exactly when the count it raises stays within the budget, and the window's start
   * never moves.
   */
  lemma {:induction false} AttemptsInWindow(w: Window, times: seq<int>)
    requires forall k :: 0 <= k < |times| ==> InWindow(w, times[k])
    ensures forall k :: 0 <= k < |times| ==> Attempts(Some(w), times)[k] == (w.count + k + 1 <= MaxAttempts)
    ensures AfterAttempts(Some(w), times) == Some(Window(w.count + |times|, w.timestamp))
    decreases |times|
  {
    if times != [] {
      var next := Window(w.count + 1, w.timestamp);
      assert Admit(Some(w), times[0]) == (next, next.count <= MaxAttempts);
      forall k | 0 <= k < |times[1..]| ensures InWindow(next, times[1..][k]) {
        assert InWindow(w, times[k + 1]);
      }
      AttemptsInWindow(next, times[1..]);
      var rest := Attempts(Some(next), times[1..]);
      assert Attempts(Some(w), times) == [next.count <= MaxAttempts] + rest;
      forall k | 1 <= k < |times|
        ensures Attempts(Some(w), times)[k] == (w.count + k + 1 <= MaxAttempts)
      {
        assert Attempts(Some(w), times)[k] == rest[k - 1];
      }
    }
  }

  /**
   * Ten attempts per hour: when a client has no entry, or its entry has expired, the
   * attempts of the following hour are admitted exactly up to the tenth; the eleventh
   * and later are rejected and still counted.
   */
  lemma {:induction false} TenAttemptsPerWindow(entry: Option<Window>, times: seq<int>)
    requires |times| >= 1
    requires entry.None? || !InWindow(entry.value, times[0])
    requires forall k :: 0 <= k < |times| ==> times[k] - times[0] < WindowMs
    ensures forall k :: 0 <= k < |times| ==> (Attempts(entry, times)[k] <==> k < MaxAttempts)
    ensures AfterAttempts(entry, times) == Some(Window(|times|, times[0]))
  {
    var first := Window(1, times[0]);
    assert Admit(entry, times[0]) == (first, true);
    forall k | 0 <= k < |times[1..]| ensures InWindow(first, times[1..][k]) {
      assert times[1..][k] == times[k + 1];
    }
    AttemptsInWindow(first, times[1..]);
    var rest := Attempts(Some(first), times[1..]);
    assert Attempts(entry, times) == [true] + rest;
    forall k | 1 <= k < |times| ensures Attempts(entry, times)[k] <==> k < MaxAttempts {
      assert Attempts(entry, times)[k] == rest[k - 1];
    }
  }
}
