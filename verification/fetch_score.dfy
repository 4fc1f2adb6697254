/** `fetchScore(id, a)`: ask the score provider for a media's average score,
    retrying with backoff. The network is replaced by the list of outcomes
    the successive requests meet, in order. */
module ScoreFetch {
  import opened Wrappers
  import opened Backoff

  /** What one request ends in: a 429 response, a thrown error (network
      failure, a body that is not JSON, or a `null` body, whose `data` read
      throws), or a response whose `data.Media` gave these two optional
      fields (both absent when `data` or `Media` is null). */
  datatype ProviderOutcome =
    | Throttled
    | Failed
    | Answered(averageScore: Option<int>, meanScore: Option<int>)

  /** The score used when the provider has none, or after repeated errors. */
  const DefaultScore := 50

  /** A thrown error is retried only while the attempt number is below this. */
  const FailureAttempts := 3

  /** The waits of the requests made, one per request and in order, and the
      score returned; `Pending` when the outcomes ran out while the function
      was still retrying (it has waited and issued one more request). */
  datatype FetchRun =
    | Settled(score: int, waits: seq<nat>)
    | Pending(waits: seq<nat>)

  /** Attempt `a` meeting outcome `o` is followed by attempt `a + 1`: a 429
      always is, an error only while `a < 3`. */
  predicate Retries(o: ProviderOutcome, a: Attempt) {
    o.Throttled? || (o.Failed? && a < FailureAttempts)
  }

  /** The score an outcome that ends the retries yields:
      `averageScore ?? meanScore ?? 50` for an answer (a zero is kept, only
      a missing field falls through), and 50 for a final error. */
  function ScoreOf(o: ProviderOutcome): (s: int)
    requires !o.Throttled?
    ensures o.Answered? && o.averageScore.Some? ==> s == o.averageScore.value
    ensures o.Answered? && o.averageScore.None? && o.meanScore.Some? ==> s == o.meanScore.value
    ensures o.Failed? || (o.averageScore.None? && o.meanScore.None?) ==> s == DefaultScore
  {
    match o
    case Failed => DefaultScore
    case Answered(avg, mean) => avg.GetOr(mean.GetOr(DefaultScore))
  }

  /** Request `k` (counted from 0, attempt `a + k`) is the first whose
      outcome does not lead to another attempt. */
  predicate SettlesAt(outs: seq<ProviderOutcome>, a: Attempt, k: int) {
    && 0 <= k < |outs|
    && (forall i :: 0 <= i < k ==> Retries(outs[i], a + i))
    && !Retries(outs[k], a + k)
  }

  function Delayed(d: nat, r: FetchRun): FetchRun {
    match r
    case Settled(s, ws) => Settled(s, [d] + ws)
    case Pending(ws) => Pending([d] + ws)
  }

  /** `fetchScore(id, a)` meeting the outcomes `outs`. Every request waits
      `min(100 * 2^(a-1), 5000)` ms first; a 429 retries with no ceiling, an
      error retries while `a < 3` and otherwise yields 50, and an answer
      yields its score. */
  function FetchScoreFrom(outs: seq<ProviderOutcome>, a: Attempt): (r: FetchRun)
    ensures forall i :: 0 <= i < |r.waits| ==> r.waits[i] == FetchDelay(a + i)
    ensures r.Pending? <==> forall i :: 0 <= i < |outs| ==> Retries(outs[i], a + i)
    ensures r.Pending? ==> |r.waits| == |outs| + 1
    ensures r.Settled? ==> SettlesAt(outs, a, |r.waits| - 1) && r.score == ScoreOf(outs[|r.waits| - 1])
    decreases |outs|
  {
    var d := FetchDelay(a);
    if outs == [] then Pending([d])
    else if Retries(outs[0], a) then
      var rest := FetchScoreFrom(outs[1..], a + 1);
      assert forall i :: 0 < i < |outs| ==> outs[i] == outs[1..][i - 1];
      assert rest.Settled? ==> SettlesAt(outs, a, |rest.waits|) by {
        if rest.Settled? {
          assert SettlesAt(outs[1..], a + 1, |rest.waits| - 1);
          forall i | 0 <= i < |rest.waits| ensures Retries(outs[i], a + i) {
            if i > 0 {
              assert Retries(outs[1..][i - 1], a + 1 + (i - 1));
            }
          }
        }
      }
      assert rest.Pending? <==> forall i :: 0 <= i < |outs| ==> Retries(outs[i], a + i) by {
        assert (forall i :: 0 <= i < |outs| ==> Retries(outs[i], a + i)) <==>
               (forall i :: 0 <= i < |outs| - 1 ==> Retries(outs[1..][i], a + 1 + i)) by {
          forall i | 0 <= i < |outs| - 1 ensures outs[1..][i] == outs[i + 1] {}
        }
      }
      var r := Delayed(d, rest);
      assert r.waits == [d] + rest.waits;
      assert forall i :: 0 < i < |r.waits| ==> r.waits[i] == rest.waits[i - 1] && a + i == (a + 1) + (i - 1);
      r
    else
      assert SettlesAt(outs, a, 0);
      Settled(ScoreOf(outs[0]), [d])
  }

  /** `fetchScore(id)`: the first call, with `a = 1`. */
  function FetchScore(outs: seq<ProviderOutcome>): (r: FetchRun)
    ensures forall i :: 0 <= i < |r.waits| ==> r.waits[i] == FetchDelay(1 + i)
    ensures r.Pending? <==> forall i :: 0 <= i < |outs| ==> Retries(outs[i], 1 + i)
    ensures r.Pending? ==> |r.waits| == |outs| + 1
    ensures r.Settled? ==> SettlesAt(outs, 1, |r.waits| - 1) && r.score == ScoreOf(outs[|r.waits| - 1])
  {
    FetchScoreFrom(outs, 1)
  }

  /** At most one request ends the retries. */
  lemma SettlesAtUnique(outs: seq<ProviderOutcome>, a: Attempt, j: int, k: int)
    requires SettlesAt(outs, a, j) && SettlesAt(outs, a, k)
    ensures j == k
  {
  }

  /** The outcomes contain one that ends the retries, so a run over them
      settles. */
  predicate Settles(outs: seq<ProviderOutcome>) {
    exists k :: 0 <= k < |outs| && !Retries(outs[k], 1 + k)
  }

  /** A 429 has no attempt ceiling: after any number `n` of 429 responses an
      answer is still taken, and its average score is returned as is, even
      when it is 0. The run has waited once per request. */
  lemma ThrottlingHasNoCeiling(n: nat, avg: int, mean: Option<int>)
    ensures var outs := seq(n, _ => Throttled) + [Answered(Some(avg), mean)];
            var r := FetchScore(outs);
            r.Settled? && r.score == avg && |r.waits| == n + 1
  {
    var outs := seq(n, _ => Throttled) + [Answered(Some(avg), mean)];
    var r := FetchScore(outs);
    assert SettlesAt(outs, 1, n);
    assert !Retries(outs[n], 1 + n);
    SettlesAtUnique(outs, 1, n, |r.waits| - 1);
  }

  /** Errors give up after the third attempt: three errors in a row yield
      the default score after waits of 100, 200 and 400 ms, whatever the
      later outcomes would have been. */
  lemma ErrorsGiveUpAtThirdAttempt(rest: seq<ProviderOutcome>)
    ensures FetchScore([Failed, Failed, Failed] + rest) == Settled(DefaultScore, [100, 200, 400])
  {
    var outs := [Failed, Failed, Failed] + rest;
    var r := FetchScore(outs);
    assert SettlesAt(outs, 1, 2);
    SettlesAtUnique(outs, 1, 2, |r.waits| - 1);
    FetchDelaySchedule(1, 3);
  }

  /** A zero average score is returned rather than replaced by the mean or
      the default; a zero mean likewise when the average is missing. */
  lemma ZeroScoreIsKept(mean: Option<int>, rest: seq<ProviderOutcome>)
    ensures FetchScore([Answered(Some(0), mean)] + rest) == Settled(0, [100])
    ensures FetchScore([Answered(None, Some(0))] + rest) == Settled(0, [100])
  {
    FetchDelaySchedule(1, 1);
  }
}
