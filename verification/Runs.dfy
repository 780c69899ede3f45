/** Runs: flags that are recorded along them, and steps one after another. */
module Runs {
  import opened Options

  /** A flag that is never taken back stays set. */
  lemma {:induction false} StaysSet(flags: seq<bool>, i: nat, j: nat)
    requires i <= j < |flags| && flags[i]
    requires forall k :: i <= k < j && flags[k] ==> flags[k + 1]
    ensures flags[j]
  {
    if i < j {
      StaysSet(flags, i, j - 1);
      assert flags[j - 1 + 1];
    }
  }

  /** A flag that is not set at first is set at some step. */
  lemma {:induction false} SetAt(flags: seq<bool>, i: nat) returns (j: nat)
    requires i < |flags| && flags[i] && !flags[0]
    ensures j < i && !flags[j] && flags[j + 1]
  {
    if flags[i - 1] {
      j := SetAt(flags, i - 1);
    } else {
      j := i - 1;
    }
  }

  /** The events happen one after another and lead from one state to the other. */
  ghost predicate Path<S(!new), E>(step: (S, E) -> Option<S>, s: S, events: seq<E>, s': S)
    decreases |events|
  {
    if events == [] then s == s'
    else exists mid :: step(s, events[0]) == Some(mid) && Path(step, mid, events[1..], s')
  }

  lemma PathOne<S(!new), E>(step: (S, E) -> Option<S>, s: S, e: E, s': S)
    requires step(s, e) == Some(s')
    ensures Path(step, s, [e], s')
  {
    assert [e][1..] == [] && Path(step, s', [], s');
  }

  lemma {:induction false} PathOn<S(!new), E>(
    step: (S, E) -> Option<S>, s: S, first: seq<E>, mid: S, more: seq<E>, s': S)
    requires Path(step, s, first, mid) && Path(step, mid, more, s')
    ensures Path(step, s, first + more, s')
    decreases |first|
  {
    if first == [] {
      assert first + more == more;
    } else {
      var s1 :| step(s, first[0]) == Some(s1) && Path(step, s1, first[1..], mid);
      PathOn(step, s1, first[1..], mid, more, s');
      assert (first + more)[1..] == first[1..] + more;
    }
  }
}
