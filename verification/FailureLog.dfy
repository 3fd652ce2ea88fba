/** The history a lockout is judged by: failed logins of one user, and the
    resets a successful login causes. */
module FailureLog {
  /** A positive length of time. */
  type Span = d: int | 0 < d witness 1

  /** The settings both trackers are built with. */
  datatype Config = Config(threshold: int, lockout: Span, ttl: Span)

  datatype Entry = Failure(time: int) | Cleared(time: int)

  type Log = seq<Entry>

  ghost predicate Ordered(log: Log) {
    forall i, j :: 0 <= i < j < |log| ==> log[i].time <= log[j].time
  }

  /** log[i..j] holds failures only. */
  ghost predicate NoReset(log: Log, i: nat, j: nat)
    requires i <= j <= |log|
  {
    forall m :: i <= m < j ==> log[m].Failure?
  }

  /** No stretch of failures that lies within less than `span` and is not cut
      by a reset is longer than `n`. */
  ghost predicate AtMostWithin(log: Log, n: int, span: int) {
    forall i, j ::
      0 <= i < j <= |log| && NoReset(log, i, j) && log[j - 1].time - log[i].time < span
      ==> j - i <= n
  }

  /** The thresholds the trackers compare with `>=` act like 1 when they are
      not positive, because a count is never below 1. */
  function Effective(threshold: int): (n: int)
    ensures n >= 1
  {
    if threshold < 1 then 1 else threshold
  }

  /** n failures at one time. */
  function Burst(now: int, n: nat): Log {
    seq(n, _ => Failure(now))
  }

  lemma BurstGrows(log: Log, now: int, n: nat)
    requires n > 0
    ensures log + Burst(now, n) == log + Burst(now, n - 1) + [Failure(now)]
  {
  }

  /** A failure and a burst soon after it. */
  lemma BurstExceeds(log: Log, start: nat, now: int, n: nat, span: int)
    requires start < |log| && log[start].Failure? && now - log[start].time < span
    requires n > 0 && log[start + 1..] == Burst(now, n)
    ensures !AtMostWithin(log, n, span)
  {
    assert forall m :: start < m < |log| ==> log[m] == log[start + 1..][m - start - 1];
    assert NoReset(log, start, |log|);
    assert |log| - start == n + 1;
  }
}
