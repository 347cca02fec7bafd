/** Accumulators that a pass over a sequence overwrites: each element
    writes `pick(element)` when that is present. The agent's hardware loop
    (Program.cs, lines 66-109) keeps four of them and its configuration
    loop (lines 173-181) one. */
module LastWrite {
  import opened Wrappers

  /** The value an accumulator holds after a pass over `xs` in which each
      element writes `pick(element)` when present: the value written by the last
      element that writes, or `initial` when no element writes. */
  function Latest<U, T>(xs: seq<U>, pick: U -> Option<T>, initial: T): T
    decreases |xs|
  {
    if xs == [] then initial
    else
      var last := |xs| - 1;
      match pick(xs[last])
      case Some(v) => v
      case None => Latest(xs[..last], pick, initial)
  }

  /** `k` is the last element that writes. */
  ghost predicate IsLastWriter<U, T>(xs: seq<U>, pick: U -> Option<T>, k: int) {
    0 <= k < |xs| && pick(xs[k]).Some? && forall j :: k < j < |xs| ==> pick(xs[j]).None?
  }

  /** When no element writes, the accumulator keeps its initial value. */
  lemma {:induction false} NoWriterKeepsInitial<U, T>(xs: seq<U>, pick: U -> Option<T>, initial: T)
    requires forall i :: 0 <= i < |xs| ==> pick(xs[i]).None?
    ensures Latest(xs, pick, initial) == initial
    decreases |xs|
  {
    if xs != [] {
      var last := |xs| - 1;
      assert forall i :: 0 <= i < last ==> xs[..last][i] == xs[i];
      NoWriterKeepsInitial(xs[..last], pick, initial);
    }
  }

  /** The last element that writes decides the accumulator. */
  lemma {:induction false} LastWriterWins<U, T>(xs: seq<U>, pick: U -> Option<T>, initial: T, k: nat)
    requires IsLastWriter(xs, pick, k)
    ensures Latest(xs, pick, initial) == pick(xs[k]).value
    decreases |xs|
  {
    var last := |xs| - 1;
    if k < last {
      var prefix := xs[..last];
      assert prefix[k] == xs[k];
      assert IsLastWriter(prefix, pick, k);
      LastWriterWins(prefix, pick, initial, k);
    }
  }

  /** When some element writes, there is a last one that does. */
  lemma {:induction false} LastWriterExists<U, T>(xs: seq<U>, pick: U -> Option<T>, i: nat)
    returns (k: nat)
    requires i < |xs| && pick(xs[i]).Some?
    ensures IsLastWriter(xs, pick, k)
    decreases |xs|
  {
    var last := |xs| - 1;
    if pick(xs[last]).Some? {
      k := last;
    } else {
      var prefix := xs[..last];
      assert prefix[i] == xs[i];
      k := LastWriterExists(prefix, pick, i);
      assert prefix[k] == xs[k];
    }
  }

  /** Latest is the last write: when no element writes it is `initial`, and
      otherwise it is what the last writing element wrote. */
  lemma LatestIsLastWrite<U, T>(xs: seq<U>, pick: U -> Option<T>, initial: T)
    ensures (forall i :: 0 <= i < |xs| ==> pick(xs[i]).None?) ==> Latest(xs, pick, initial) == initial
    ensures (exists i :: 0 <= i < |xs| && pick(xs[i]).Some?) ==>
              exists k :: IsLastWriter(xs, pick, k) && pick(xs[k]) == Some(Latest(xs, pick, initial))
  {
    if exists i :: 0 <= i < |xs| && pick(xs[i]).Some? {
      var i :| 0 <= i < |xs| && pick(xs[i]).Some?;
      var k := LastWriterExists(xs, pick, i);
      LastWriterWins(xs, pick, initial, k);
    } else {
      NoWriterKeepsInitial(xs, pick, initial);
    }
  }

  /** A property that the initial value and every written value have holds
      of the accumulator. */
  lemma {:induction false} LatestKeeps<U, T>(xs: seq<U>, pick: U -> Option<T>, initial: T, p: T -> bool)
    requires p(initial)
    requires forall i :: 0 <= i < |xs| && pick(xs[i]).Some? ==> p(pick(xs[i]).value)
    ensures p(Latest(xs, pick, initial))
    decreases |xs|
  {
    if xs != [] {
      var last := |xs| - 1;
      assert forall i :: 0 <= i < last ==> xs[..last][i] == xs[i];
      LatestKeeps(xs[..last], pick, initial, p);
    }
  }

  /** One more element: it overwrites the accumulator when it writes. */
  lemma LatestStep<U, T>(xs: seq<U>, n: nat, pick: U -> Option<T>, initial: T)
    requires n < |xs|
    ensures Latest(xs[..n + 1], pick, initial) == pick(xs[n]).GetOr(Latest(xs[..n], pick, initial))
  {
    assert xs[..n + 1][..n] == xs[..n];
  }

  /** A pass over `us` and then `vs` is a pass over `vs` starting from the
      value left by `us`. */
  lemma {:induction false} LatestAppend<U, T>(us: seq<U>, vs: seq<U>, pick: U -> Option<T>, initial: T)
    ensures Latest(us + vs, pick, initial) == Latest(vs, pick, Latest(us, pick, initial))
    decreases |vs|
  {
    if vs != [] {
      var last := |vs| - 1;
      assert (us + vs)[..|us| + last] == us + vs[..last];
      assert (us + vs)[|us| + last] == vs[last];
      LatestAppend(us, vs[..last], pick, initial);
    } else {
      assert us + vs == us;
    }
  }

  /** A later element that writes overwrites whatever earlier elements wrote. */
  lemma LaterWriteOverwrites<U, T>(us: seq<U>, x: U, vs: seq<U>, pick: U -> Option<T>, initial: T, v: T)
    requires pick(x) == Some(v)
    requires forall j :: 0 <= j < |vs| ==> pick(vs[j]).None?
    ensures Latest(us + [x] + vs, pick, initial) == v
  {
    LatestAppend(us + [x], vs, pick, initial);
    assert (us + [x])[..|us|] == us;
    LatestIsLastWrite(vs, pick, v);
  }

  /** Elements that write nothing leave the accumulator as it was. */
  lemma SilentElementsKeepValue<U, T>(us: seq<U>, vs: seq<U>, pick: U -> Option<T>, initial: T)
    requires forall j :: 0 <= j < |vs| ==> pick(vs[j]).None?
    ensures Latest(us + vs, pick, initial) == Latest(us, pick, initial)
  {
    LatestAppend(us, vs, pick, initial);
    LatestIsLastWrite(vs, pick, Latest(us, pick, initial));
  }
}
