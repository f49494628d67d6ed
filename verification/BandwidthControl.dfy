/**
 The scheduler as a feedback controller: what its threshold rule makes of a transfer's bandwidth when Cargo
 answers every signal with a bounded step in the signalled direction.
 */
module BandwidthControl {
  import opened Common
  import opened Transfers

  /** A visit sends no signal exactly for the unmeasured sentinel, and for a stalled transfer limited to zero. */
  lemma SilentExactly(bw: real, qos: nat)
    ensures Steer(bw, qos) == None <==> bw == UNMEASURED || (bw == 0.0 && qos == 0)
  {
    if bw > 0.0 {
      assert bw * THRESHOLD > 0.0;
    } else if bw < 0.0 {
      assert bw - bw * THRESHOLD < 0.0;
    }
  }

  /** The rule has no dead band: 1.1 bw against qos decides between the signals, and nothing else keeps it silent. */
  lemma DirectionExactly(bw: real, qos: nat)
    ensures Steer(bw, qos) == Some(SlowDown) <==> 1.1 * bw > qos as real
    ensures Steer(bw, qos) == Some(SpeedUp) <==> 1.1 * bw <= qos as real && bw != UNMEASURED && (bw != 0.0 || qos > 0)
  {
    SilentExactly(bw, qos);
  }

  /** The bandwidth the rule steers towards. */
  function Target(qos: nat): real {
    qos as real / 1.1
  }

  function Distance(bw: real, qos: nat): real {
    if bw > Target(qos) then bw - Target(qos) else Target(qos) - bw
  }

  /** A pass that sends a signal, after which the bandwidth has moved by at least `e` and at most `d` the way it was told. */
  ghost predicate Responds(bw: real, bw': real, qos: nat, e: real, d: real) {
    match Steer(bw, qos)
    case Some(SlowDown) => bw - d <= bw' <= bw - e
    case Some(SpeedUp) => bw + e <= bw' <= bw + d
    case None => false
  }

  ghost predicate ControlledRun(bws: seq<real>, qos: nat, e: real, d: real) {
    forall i :: 0 < i < |bws| ==> Responds(bws[i - 1], bws[i], qos, e, d)
  }

  /** One pass: inside the band the bandwidth stays inside; outside, it gets closer by at least `e`. */
  lemma OnePass(bw: real, bw': real, qos: nat, e: real, d: real)
    requires 0.0 < e <= d && Responds(bw, bw', qos, e, d)
    ensures Distance(bw, qos) <= d ==> Distance(bw', qos) <= d
    ensures Distance(bw, qos) > d ==> Distance(bw', qos) <= Distance(bw, qos) - e
  {
    DirectionExactly(bw, qos);
    assert 1.1 * Target(qos) == qos as real;
  }

  /** How far `passes` steps of at least `e` go. */
  function Covered(passes: nat, e: real): real {
    passes as real * e
  }

  lemma OnePassMore(n: nat, e: real)
    requires n > 0
    ensures Covered(n, e) == Covered(n - 1, e) + e && Covered(0, e) == 0.0
  {
    assert n as real * e == (n - 1) as real * e + e;
  }

  /** A limited transfer that reads bandwidth zero, because it has just started or has stalled, is such a pass too. */
  lemma StalledIsControlled(qos: nat, bw': real, e: real, d: real)
    requires qos > 0 && e <= bw' <= d
    ensures Responds(0.0, bw', qos, e, d)
  {
  }

  lemma {:induction false} AfterPasses(bws: seq<real>, qos: nat, e: real, d: real, n: nat)
    requires 0.0 < e <= d && n < |bws| && ControlledRun(bws, qos, e, d)
    ensures Distance(bws[n], qos) <= d || Distance(bws[n], qos) <= Distance(bws[0], qos) - Covered(n, e)
  {
    if n > 0 {
      AfterPasses(bws, qos, e, d, n - 1);
      assert Responds(bws[n - 1], bws[n], qos, e, d);
      OnePass(bws[n - 1], bws[n], qos, e, d);
      OnePassMore(n, e);
      hide Covered, Distance, Responds;
    }
  }

  lemma {:induction false} MorePassesCoverMore(n: nat, i: nat, e: real)
    requires n <= i && e > 0.0
    ensures Covered(n, e) <= Covered(i, e)
  {
    hide Covered;
    if n < i {
      MorePassesCoverMore(n, i - 1, e);
      OnePassMore(i, e);
    }
  }

  /**
   Convergence: after as many passes as it takes steps of `e` to cover the initial distance, the bandwidth is
   within `d` of the target, and it stays there for the rest of the run.
   */
  lemma Converges(bws: seq<real>, qos: nat, e: real, d: real, n: nat, i: nat)
    requires 0.0 < e <= d && n <= i < |bws| && ControlledRun(bws, qos, e, d)
    requires Covered(n, e) >= Distance(bws[0], qos)
    ensures Distance(bws[i], qos) <= d
  {
    hide Covered, Distance, ControlledRun;
    AfterPasses(bws, qos, e, d, i);
    MorePassesCoverMore(n, i, e);
  }
}
