/** The size-stability gate: poll a file's size until it has not changed for a
    quiet period, the file disappears, a size read fails, or the maximum wait
    is reached. Time is in milliseconds. */
module Stability {

  const PollInterval: int := 500
  const StableTicks: int := 2000
  const MaxWait: int := 180000

  /** The most polls that can pass without the maximum wait being reached. */
  const MaxPolls: int := 360

  /** What one poll observes: the path is missing, reading its size fails,
      or a size read at clock tick `t`. */
  datatype Probe = Gone | StatFailed | Sized(size: nat, t: int)

  /** The environment of the loop: poll `i` happens at least `i` poll intervals
      after `start` (the loop sleeps between polls and the clock does not run
      backwards), and an observation is supplied for every poll the loop can
      reach. */
  ghost predicate Paced(start: int, probes: seq<Probe>) {
    && |probes| > MaxPolls
    && forall i :: 0 <= i < |probes| && probes[i].Sized? ==> probes[i].t >= start + i * PollInterval
  }

  /** Every poll up to and including `n` read a size. */
  ghost predicate SizedUpTo(probes: seq<Probe>, n: nat) {
    n < |probes| && forall j :: 0 <= j <= n ==> probes[j].Sized?
  }

  /** The poll at which the size seen at poll `n` was first observed in its
      current run: every poll from there to `n` saw the same size, and the poll
      before it (if any) saw a different one. */
  function RunStart(probes: seq<Probe>, n: nat): (r: nat)
    requires SizedUpTo(probes, n)
    ensures r <= n
    ensures forall j :: r <= j <= n ==> probes[j].size == probes[n].size
    ensures r == 0 || probes[r - 1].size != probes[n].size
    decreases n
  {
    if n == 0 || probes[n - 1].size != probes[n].size then n else RunStart(probes, n - 1)
  }

  /** At poll `n` the size has been unchanged for at least the quiet period. */
  ghost predicate StableAt(probes: seq<Probe>, n: nat)
    requires SizedUpTo(probes, n)
  {
    probes[n].t - probes[RunStart(probes, n)].t >= StableTicks
  }

  /** Poll `k` lets the loop go round again: it read a size, the size is not
      yet stable, and the maximum wait has not been reached. */
  ghost predicate Continues(start: int, probes: seq<Probe>, k: nat) {
    SizedUpTo(probes, k) && !StableAt(probes, k) && probes[k].t - start < MaxWait
  }

  /** Poll `n` is the one that decides: every earlier poll continued and this
      one does not. */
  ghost predicate VerdictAt(start: int, probes: seq<Probe>, n: nat) {
    && n < |probes|
    && (forall k: nat :: k < n ==> Continues(start, probes, k))
    && !Continues(start, probes, n)
  }

  /** The loop's answer is true: its deciding poll read a stable size. */
  ghost predicate Settles(start: int, probes: seq<Probe>) {
    exists n: nat :: VerdictAt(start, probes, n) && SizedUpTo(probes, n) && StableAt(probes, n)
  }

  /** Only one poll can be the deciding one. */
  lemma VerdictUnique(start: int, probes: seq<Probe>, n: nat, m: nat)
    requires VerdictAt(start, probes, n) && VerdictAt(start, probes, m)
    ensures n == m
  {
  }

  /** A deciding poll without a stable size means the loop does not settle. */
  lemma Unsettled(start: int, probes: seq<Probe>, n: nat)
    requires VerdictAt(start, probes, n) && !(SizedUpTo(probes, n) && StableAt(probes, n))
    ensures !Settles(start, probes)
  {
  }

  /** `wait_until_stable`. Returns the verdict and the index of the deciding
      poll. The answer is true exactly when the deciding poll read a size that
      has been unchanged for the quiet period; stability is checked before the
      timeout, so it wins when both hold at the same poll. */
  method WaitUntilStable(start: int, probes: seq<Probe>) returns (stable: bool, polls: nat)
    requires Paced(start, probes)
    ensures VerdictAt(start, probes, polls)
    ensures polls <= MaxPolls
    ensures stable <==> SizedUpTo(probes, polls) && StableAt(probes, polls)
    ensures stable <==> Settles(start, probes)
  {
    var lastSize: int := -1;
    // The second clock reading of the source; the first size read always
    // differs from -1 and overwrites it.
    var lastChange := start;
    var i: nat := 0;
    while true
      invariant i <= MaxPolls
      invariant forall k: nat :: k < i ==> Continues(start, probes, k)
      invariant i == 0 ==> lastSize == -1
      invariant i > 0 ==> SizedUpTo(probes, i - 1)
      invariant i > 0 ==> lastSize == probes[i - 1].size
      invariant i > 0 ==> lastChange == probes[RunStart(probes, i - 1)].t
      decreases MaxPolls - i
    {
      var probe := probes[i];
      if probe.Gone? || probe.StatFailed? {
        assert !SizedUpTo(probes, i) && VerdictAt(start, probes, i);
        Unsettled(start, probes, i);
        return false, i;
      }
      var size, t := probe.size, probe.t;
      assert SizedUpTo(probes, i);
      if size != lastSize {
        lastSize := size;
        lastChange := t;
        assert RunStart(probes, i) == i;
      } else {
        assert RunStart(probes, i) == RunStart(probes, i - 1);
      }
      if t - lastChange >= StableTicks {
        assert StableAt(probes, i) && VerdictAt(start, probes, i);
        return true, i;
      }
      if t - start >= MaxWait {
        assert !StableAt(probes, i) && VerdictAt(start, probes, i);
        Unsettled(start, probes, i);
        return false, i;
      }
      assert Continues(start, probes, i);
      assert i * PollInterval < MaxWait;
      i := i + 1;
    }
  }

  /** A true verdict means the size seen at the deciding poll was seen by every
      poll of the last quiet period. */
  lemma StableMeansQuiet(start: int, probes: seq<Probe>, n: nat)
    requires VerdictAt(start, probes, n) && SizedUpTo(probes, n) && StableAt(probes, n)
    ensures exists r: nat :: r <= n && probes[n].t - probes[r].t >= StableTicks
                             && forall j :: r <= j <= n ==> probes[j].size == probes[n].size
  {
    var r := RunStart(probes, n);
    assert r <= n && probes[n].t - probes[r].t >= StableTicks;
  }

  /** A file whose size changes at every poll is never reported stable: the
      deciding poll is a missing file, a failed read or the timeout. */
  lemma {:induction false} AlwaysGrowingNeverStable(start: int, probes: seq<Probe>, n: nat)
    requires VerdictAt(start, probes, n)
    requires forall j :: 0 < j <= n && probes[j - 1].Sized? && probes[j].Sized?
                         ==> probes[j - 1].size != probes[j].size
    ensures !(SizedUpTo(probes, n) && StableAt(probes, n))
    ensures probes[n].Sized? ==> probes[n].t - start >= MaxWait
  {
    if n > 0 {
      assert Continues(start, probes, n - 1);
    }
    if SizedUpTo(probes, n) {
      assert RunStart(probes, n) == n;
      assert !Continues(start, probes, n);
    }
  }
}
