/** Result accounting of the load driver: every completed request task is either a
    success (a response was received, whatever its status code) or a transport error.
    The outcomes of a run are a sequence of booleans, one per task in the order the tasks
    complete, `true` for success. */
module Tally {

  /** Number of tasks in `s` whose outcome is `v`. */
  function Count(s: seq<bool>, v: bool): (k: nat)
    ensures k <= |s|
  {
    if s == [] then 0 else (if s[0] == v then 1 else 0) + Count(s[1..], v)
  }

  /** Tallies add up over consecutive stretches of tasks (one wave after another). */
  lemma {:induction false} CountAppend(a: seq<bool>, b: seq<bool>, v: bool)
    ensures Count(a + b, v) == Count(a, v) + Count(b, v)
  {
    if a == [] {
      assert a + b == b;
    } else {
      assert (a + b)[1..] == a[1..] + b;
      CountAppend(a[1..], b, v);
    }
  }

  /** The tally of the first b tasks is that of the first a tasks plus that of the tasks
      from a up to b. */
  lemma CountPrefix(s: seq<bool>, a: nat, b: nat, v: bool)
    requires a <= b <= |s|
    ensures Count(s[..b], v) == Count(s[..a], v) + Count(s[a..b], v)
  {
    assert s[..b] == s[..a] + s[a..b];
    CountAppend(s[..a], s[a..b], v);
  }

  /** Every task is counted exactly once: as a success or as an error, never both,
      never neither. */
  lemma {:induction false} CountPartition(s: seq<bool>)
    ensures Count(s, true) + Count(s, false) == |s|
  {
    if s != [] {
      CountPartition(s[1..]);
    }
  }

  /** A tally is the multiplicity of the outcome in the multiset of outcomes. */
  lemma {:induction false} CountIsMultiplicity(s: seq<bool>, v: bool)
    ensures Count(s, v) == multiset(s)[v]
  {
    if s != [] {
      assert s == [s[0]] + s[1..];
      assert multiset(s) == multiset{s[0]} + multiset(s[1..]);
      CountIsMultiplicity(s[1..], v);
    }
  }

  /** The final tallies depend only on the multiset of outcomes, not on the order in
      which the tasks complete. */
  lemma CountOrderIndependent(a: seq<bool>, b: seq<bool>)
    requires multiset(a) == multiset(b)
    ensures Count(a, true) == Count(b, true)
    ensures Count(a, false) == Count(b, false)
  {
    CountIsMultiplicity(a, true);
    CountIsMultiplicity(b, true);
    CountIsMultiplicity(a, false);
    CountIsMultiplicity(b, false);
  }

  /** No task is counted as `v` exactly when none of the outcomes is `v`; in particular
      a run against an endpoint that always answers has no errors, and a run against an
      unreachable one has no successes. */
  lemma {:induction false} CountZeroIff(s: seq<bool>, v: bool)
    ensures Count(s, v) == 0 <==> forall i :: 0 <= i < |s| ==> s[i] != v
  {
    if s != [] {
      CountZeroIff(s[1..], v);
      assert forall i :: 1 <= i < |s| ==> s[i] == s[1..][i - 1];
    }
  }

  /** Every task has outcome `v` exactly when the tally of `v` is the number of tasks. */
  lemma {:induction false} CountFullIff(s: seq<bool>, v: bool)
    ensures Count(s, v) == |s| <==> forall i :: 0 <= i < |s| ==> s[i] == v
  {
    CountPartition(s);
    CountZeroIff(s, !v);
    if v {
      assert Count(s, !v) == Count(s, false);
    } else {
      assert Count(s, !v) == Count(s, true);
    }
  }
}
