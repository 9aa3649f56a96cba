/**
 * What the arrival generator admits in one call: starting from the pending
 * arrival time `next`, a record stamped `next` is admitted while `next` is
 * no later than the block time, and `next` then moves on by one sampled gap.
 * The sampled gaps are supplied by the caller.
 */
module Arrivals {
  import opened Records

  /** The gaps carry the arrival clock past `blockEnd` before they run out. */
  ghost predicate Sufficient(next: real, blockEnd: real, gaps: seq<real>)
    decreases |gaps|
  {
    blockEnd < next || (gaps != [] && Sufficient(next + gaps[0], blockEnd, gaps[1..]))
  }

  /** The records admitted, in admission order. */
  function Admitted(next: real, blockEnd: real, gaps: seq<real>): (a: seq<Entry>)
    ensures |a| <= |gaps|
    ensures FixedSize(a) && NotAfter(a, blockEnd)
    decreases |gaps|
  {
    if blockEnd < next || gaps == [] then []
    else [Entry(TXN_SIZE, next)] + Admitted(next + gaps[0], blockEnd, gaps[1..])
  }

  /** The pending arrival time once the generator returns. */
  function ClockAfter(next: real, blockEnd: real, gaps: seq<real>): real
    decreases |gaps|
  {
    if blockEnd < next || gaps == [] then next
    else ClockAfter(next + gaps[0], blockEnd, gaps[1..])
  }

  function GapSum(gaps: seq<real>): real
  {
    if gaps == [] then 0.0 else gaps[0] + GapSum(gaps[1..])
  }

  ghost predicate NonNegative(gaps: seq<real>)
  {
    forall i :: 0 <= i < |gaps| ==> 0.0 <= gaps[i]
  }

  /** One admission: the record stamped `next` comes first, and the rest is generated from `next + gaps[0]`. */
  lemma AdmitStep(next: real, blockEnd: real, gaps: seq<real>)
    requires gaps != [] && next <= blockEnd
    ensures Admitted(next, blockEnd, gaps) == [Entry(TXN_SIZE, next)] + Admitted(next + gaps[0], blockEnd, gaps[1..])
    ensures ClockAfter(next, blockEnd, gaps) == ClockAfter(next + gaps[0], blockEnd, gaps[1..])
  {
  }

  /** While the clock has not passed the block time, a gap remains to be drawn. */
  lemma GapsRemain(next0: real, next: real, blockEnd: real, gaps: seq<real>, k: int)
    requires 0 <= k <= |gaps| && next <= blockEnd
    requires ClockAfter(next, blockEnd, gaps[k..]) == ClockAfter(next0, blockEnd, gaps)
    requires blockEnd < ClockAfter(next0, blockEnd, gaps)
    ensures k < |gaps|
  {
  }

  /**
   * The generator's state after `k` admissions, advanced by one more: the
   * record stamped `next` joins the admitted ones and the clock moves to
   * `next1`, one gap later.
   */
  lemma AdmitAdvance(next0: real, next: real, next1: real, blockEnd: real, gaps: seq<real>, k: int, admitted: seq<Entry>)
    requires 0 <= k < |gaps| && next <= blockEnd && next1 == next + gaps[k]
    requires admitted + Admitted(next, blockEnd, gaps[k..]) == Admitted(next0, blockEnd, gaps)
    requires ClockAfter(next, blockEnd, gaps[k..]) == ClockAfter(next0, blockEnd, gaps)
    ensures (admitted + [Entry(TXN_SIZE, next)]) + Admitted(next1, blockEnd, gaps[k + 1..]) == Admitted(next0, blockEnd, gaps)
    ensures ClockAfter(next1, blockEnd, gaps[k + 1..]) == ClockAfter(next0, blockEnd, gaps)
  {
    var rest := gaps[k..];
    assert rest != [] && rest[0] == gaps[k];
    AdmitStep(next, blockEnd, rest);
    assert rest[1..] == gaps[k + 1..];
  }

  /** On return the next arrival lies strictly after the block time. */
  lemma {:induction false} ClockPassesBlockEnd(next: real, blockEnd: real, gaps: seq<real>)
    requires Sufficient(next, blockEnd, gaps)
    ensures blockEnd < ClockAfter(next, blockEnd, gaps)
    decreases |gaps|
  {
    if !(blockEnd < next) {
      ClockPassesBlockEnd(next + gaps[0], blockEnd, gaps[1..]);
    }
  }

  /**
   * The k-th admitted record is stamped with the start time plus the first k
   * gaps, and the clock ends at the start time plus one gap per admission.
   */
  lemma {:induction false} AdmittedArePartialSums(next: real, blockEnd: real, gaps: seq<real>)
    ensures var a := Admitted(next, blockEnd, gaps);
            && (forall k :: 0 <= k < |a| ==> a[k].time == next + GapSum(gaps[..k]))
            && ClockAfter(next, blockEnd, gaps) == next + GapSum(gaps[..|a|])
    decreases |gaps|
  {
    var a := Admitted(next, blockEnd, gaps);
    if blockEnd < next || gaps == [] {
      assert gaps[..0] == [];
    } else {
      var rest := Admitted(next + gaps[0], blockEnd, gaps[1..]);
      AdmittedArePartialSums(next + gaps[0], blockEnd, gaps[1..]);
      forall k | 1 <= k <= |a|
        ensures GapSum(gaps[..k]) == gaps[0] + GapSum(gaps[1..][..k - 1])
      {
        assert gaps[..k][1..] == gaps[1..][..k - 1];
      }
      assert gaps[..0] == [];
    }
  }

  /**
   * With non-negative gaps the admitted records are in arrival order, none
   * earlier than the start time and none later than the clock on return.
   */
  lemma {:induction false} AdmittedInOrder(next: real, blockEnd: real, gaps: seq<real>)
    requires NonNegative(gaps)
    ensures var a := Admitted(next, blockEnd, gaps);
            && Ordered(a)
            && (forall i :: 0 <= i < |a| ==> next <= a[i].time)
            && NotAfter(a, ClockAfter(next, blockEnd, gaps))
            && next <= ClockAfter(next, blockEnd, gaps)
    decreases |gaps|
  {
    if !(blockEnd < next || gaps == []) {
      var next' := next + gaps[0];
      var rest := Admitted(next', blockEnd, gaps[1..]);
      AdmittedInOrder(next', blockEnd, gaps[1..]);
      var a := [Entry(TXN_SIZE, next)] + rest;
      assert Admitted(next, blockEnd, gaps) == a;
      assert ClockAfter(next, blockEnd, gaps) == ClockAfter(next', blockEnd, gaps[1..]);
      forall i | 0 <= i < |a|
        ensures next <= a[i].time
      {
        if 0 < i {
          assert a[i] == rest[i - 1];
        }
      }
      forall i, j | 0 <= i < j < |a|
        ensures a[i].time <= a[j].time
      {
        assert a[j] == rest[j - 1];
        if 0 < i {
          assert a[i] == rest[i - 1];
        }
      }
    }
  }
}
