/**
 * The grouping that `calc` applies once a callable of arity reqNum >= 2 has
 * been accepted: the accumulated values are split into a first group of
 * reqNum values followed by groups of reqNum - 1 values, and the callable is
 * folded over those groups from the left, each later call receiving the
 * previous result in front of its group.
 */
module Grouping {

  /** The concatenation of a sequence of groups. */
  function Flatten<V>(gs: seq<seq<V>>): seq<V>
  {
    if |gs| == 0 then [] else gs[0] + Flatten(gs[1..])
  }

  /** Each argument list without its first element. */
  function Tails<V>(calls: seq<seq<V>>): seq<seq<V>>
    requires forall i :: 0 <= i < |calls| ==> |calls[i]| > 0
  {
    seq(|calls|, i requires 0 <= i < |calls| => calls[i][1..])
  }

  /**
   * What `array_splice($s, 0, $n)` does to an array: the first min(n, |s|)
   * elements are removed and returned, the rest stays behind.
   */
  function Splice<V>(s: seq<V>, n: nat): (p: (seq<V>, seq<V>))
    ensures p.0 + p.1 == s
    ensures |p.0| == if n < |s| then n else |s|
  {
    var m := if n < |s| then n else |s|;
    (s[..m], s[m..])
  }

  /** The pieces that repeated splices of k elements cut out of s. */
  function Chunks<V>(s: seq<V>, k: nat): seq<seq<V>>
    requires k >= 1
    decreases |s|
  {
    if |s| == 0 then [] else
      var p := Splice(s, k);
      [p.0] + Chunks(p.1, k)
  }

  /** A first group of reqNum values, then the rest in pieces of reqNum - 1. */
  function Groups<V>(values: seq<V>, reqNum: nat): seq<seq<V>>
    requires reqNum >= 2
  {
    var p := Splice(values, reqNum);
    [p.0] + Chunks(p.1, reqNum - 1)
  }

  /** Left fold of f over groups, each call getting the running result first. */
  function FoldFrom<V>(f: seq<V> -> V, acc: V, gs: seq<seq<V>>): V
    decreases |gs|
  {
    if |gs| == 0 then acc else FoldFrom(f, f([acc] + gs[0]), gs[1..])
  }

  /** The first group is passed to f as it is; the later ones follow FoldFrom. */
  function FoldGroups<V>(f: seq<V> -> V, gs: seq<seq<V>>): V
    requires |gs| > 0
  {
    FoldFrom(f, f(gs[0]), gs[1..])
  }

  /** The arguments of the calls FoldFrom makes, in order. */
  function LogFrom<V>(f: seq<V> -> V, acc: V, gs: seq<seq<V>>): seq<seq<V>>
    decreases |gs|
  {
    if |gs| == 0 then [] else
      var g := [acc] + gs[0];
      [g] + LogFrom(f, f(g), gs[1..])
  }

  /** The arguments of the calls FoldGroups makes, in order. */
  function CallLog<V>(f: seq<V> -> V, gs: seq<seq<V>>): seq<seq<V>>
    requires |gs| > 0
  {
    [gs[0]] + LogFrom(f, f(gs[0]), gs[1..])
  }

  /** The number of values that reqNum values plus j further groups of reqNum - 1 make. */
  function FittingCount(reqNum: nat, j: nat): nat
    requires reqNum >= 1
  {
    reqNum + j * (reqNum - 1)
  }

  // ---------------------------------------------------------------------
  // Arithmetic used by the lemmas below.

  lemma MulAtLeast(x: int, k: int)
    requires x >= 1 && k >= 1
    ensures x * k >= k
  {
    assert x * k == (x - 1) * k + k;
  }

  /** Quotient and remainder are determined by n == q * k + r with 0 <= r < k. */
  lemma DivModUnique(n: int, k: int, q: int, r: int)
    requires k >= 1 && 0 <= r < k && n == q * k + r
    ensures n / k == q && n % k == r
  {
    var q0, r0 := n / k, n % k;
    assert n == q0 * k + r0;
    assert (q - q0) * k == r0 - r;
    if q > q0 {
      MulAtLeast(q - q0, k);
    } else if q < q0 {
      MulAtLeast(q0 - q, k);
    }
  }

  lemma ModAfterSubtract(a: nat, k: nat)
    requires 1 <= k <= a
    ensures (a - k) % k == a % k
    ensures (a - k) / k == a / k - 1
  {
    var q, r := a / k, a % k;
    assert a == q * k + r;
    assert a - k == (q - 1) * k + r;
    DivModUnique(a - k, k, q - 1, r);
  }

  lemma MultipleMod(j: nat, k: nat)
    requires k >= 1
    ensures (j * k) % k == 0
    ensures (j * k) / k == j
  {
    DivModUnique(j * k, k, j, 0);
  }

  // ---------------------------------------------------------------------
  // Splitting the values into groups.

  /** The first piece of a non-empty sequence is what one splice removes. */
  lemma ChunksStep<V>(s: seq<V>, k: nat)
    requires k >= 1 && |s| > 0
    ensures Chunks(s, k) == [Splice(s, k).0] + Chunks(Splice(s, k).1, k)
  {
  }

  /** Splicing in pieces of k loses, duplicates and reorders nothing. */
  lemma {:induction false} ChunksFlatten<V>(s: seq<V>, k: nat)
    requires k >= 1
    ensures Flatten(Chunks(s, k)) == s
    decreases |s|
  {
    if |s| > 0 {
      var p := Splice(s, k);
      ChunksFlatten(p.1, k);
      assert Chunks(s, k)[1..] == Chunks(p.1, k);
    }
  }

  /** When k divides |s|, every piece is full and there are |s| / k of them. */
  lemma {:induction false} ChunksExact<V>(s: seq<V>, k: nat)
    requires k >= 1 && |s| % k == 0
    ensures |Chunks(s, k)| == |s| / k
    ensures forall i :: 0 <= i < |Chunks(s, k)| ==> |Chunks(s, k)[i]| == k
    decreases |s|
  {
    if |s| > 0 {
      assert |s| >= k;
      ModAfterSubtract(|s|, k);
      var p := Splice(s, k);
      ChunksExact(p.1, k);
      var cs := Chunks(s, k);
      assert cs == [p.0] + Chunks(p.1, k);
      forall i | 0 <= i < |cs| ensures |cs[i]| == k {
        if i > 0 {
          assert cs[i] == Chunks(p.1, k)[i - 1];
        }
      }
    }
  }

  /** Conversely, full pieces of k that are concatenated are cut back into the same pieces. */
  lemma {:induction false} FlattenChunks<V>(pieces: seq<seq<V>>, k: nat)
    requires k >= 1
    requires forall i :: 0 <= i < |pieces| ==> |pieces[i]| == k
    ensures Chunks(Flatten(pieces), k) == pieces
    decreases |pieces|
  {
    if |pieces| > 0 {
      var s := Flatten(pieces);
      assert s == pieces[0] + Flatten(pieces[1..]);
      assert Splice(s, k).0 == pieces[0];
      assert Splice(s, k).1 == Flatten(pieces[1..]);
      FlattenChunks(pieces[1..], k);
    }
  }

  /** A first group of reqNum values and pieces of reqNum - 1, concatenated, are grouped back into themselves. */
  /** Pieces that all have k elements concatenate to |pieces| * k elements. */
  lemma {:induction false} FlattenLength<V>(pieces: seq<seq<V>>, k: nat)
    requires forall i :: 0 <= i < |pieces| ==> |pieces[i]| == k
    ensures |Flatten(pieces)| == |pieces| * k
  {
    if |pieces| > 0 {
      FlattenLength(pieces[1..], k);
    }
  }

  lemma FlattenGroups<V>(gs: seq<seq<V>>, reqNum: nat)
    requires reqNum >= 2 && |gs| > 0 && |gs[0]| == reqNum
    requires forall i :: 1 <= i < |gs| ==> |gs[i]| == reqNum - 1
    ensures Groups(Flatten(gs), reqNum) == gs
  {
    var s := Flatten(gs);
    assert s == gs[0] + Flatten(gs[1..]);
    assert Splice(s, reqNum).0 == gs[0];
    assert Splice(s, reqNum).1 == Flatten(gs[1..]);
    FlattenChunks(gs[1..], reqNum - 1);
  }

  /** The groups are the values, cut up in order, and the first one is as long as it can be. */
  lemma GroupsPartition<V>(values: seq<V>, reqNum: nat)
    requires reqNum >= 2
    ensures Flatten(Groups(values, reqNum)) == values
    ensures |Groups(values, reqNum)[0]| == if reqNum < |values| then reqNum else |values|
  {
    var p := Splice(values, reqNum);
    ChunksFlatten(p.1, reqNum - 1);
    assert Groups(values, reqNum)[1..] == Chunks(p.1, reqNum - 1);
  }

  /**
   * When the count passes the multiple check, the first group has reqNum
   * values, every other group reqNum - 1, and there are
   * 1 + (count - reqNum) / (reqNum - 1) groups.
   */
  lemma GroupsExact<V>(values: seq<V>, reqNum: nat)
    requires reqNum >= 2 && |values| >= reqNum
    requires (|values| - 1) % (reqNum - 1) == 0
    ensures |Groups(values, reqNum)| == 1 + (|values| - reqNum) / (reqNum - 1)
    ensures |Groups(values, reqNum)[0]| == reqNum
    ensures forall i :: 1 <= i < |Groups(values, reqNum)| ==> |Groups(values, reqNum)[i]| == reqNum - 1
  {
    var k := reqNum - 1;
    ModAfterSubtract(|values| - 1, k);
    assert |values| - reqNum == (|values| - 1) - k;
    var p := Splice(values, reqNum);
    assert |p.1| == |values| - reqNum;
    ChunksExact(p.1, k);
    var gs := Groups(values, reqNum);
    assert gs == [p.0] + Chunks(p.1, k);
    forall i | 1 <= i < |gs| ensures |gs[i]| == k {
      assert gs[i] == Chunks(p.1, k)[i - 1];
    }
  }

  /** A count passes the multiple check exactly when it is reqNum plus whole groups of reqNum - 1. */
  lemma {:induction false} FitsIff(valNum: nat, reqNum: nat)
    requires reqNum >= 2
    ensures (valNum >= reqNum && (valNum - 1) % (reqNum - 1) == 0)
            <==> exists j: nat :: valNum == FittingCount(reqNum, j)
  {
    var k := reqNum - 1;
    if valNum >= reqNum && (valNum - 1) % k == 0 {
      ModAfterSubtract(valNum - 1, k);
      var j: nat := (valNum - reqNum) / k;
      assert (valNum - reqNum) % k == 0;
      assert valNum - reqNum == j * k;
      assert valNum == FittingCount(reqNum, j);
    }
    if exists j: nat :: valNum == FittingCount(reqNum, j) {
      var j: nat :| valNum == FittingCount(reqNum, j);
      assert valNum - 1 == (j + 1) * k;
      MultipleMod(j + 1, k);
    }
  }

  // ---------------------------------------------------------------------
  // The calls the fold makes.

  /** One step of the fold and of its call log. */
  lemma FoldStep<V>(f: seq<V> -> V, acc: V, gs: seq<seq<V>>)
    requires |gs| > 0
    ensures LogFrom(f, acc, gs) == [[acc] + gs[0]] + LogFrom(f, f([acc] + gs[0]), gs[1..])
    ensures FoldFrom(f, acc, gs) == FoldFrom(f, f([acc] + gs[0]), gs[1..])
  {
  }

  /**
   * LogFrom lists one call per group; call i gets the running result (acc
   * for the first, the previous call's result after that) followed by group
   * i; and FoldFrom is the result of the last call.
   */
  lemma {:induction false} LogFromShape<V>(f: seq<V> -> V, acc: V, gs: seq<seq<V>>)
    ensures |LogFrom(f, acc, gs)| == |gs|
    ensures |gs| > 0 ==> LogFrom(f, acc, gs)[0] == [acc] + gs[0]
    ensures forall i :: 1 <= i < |gs| ==>
              LogFrom(f, acc, gs)[i] == [f(LogFrom(f, acc, gs)[i - 1])] + gs[i]
    ensures FoldFrom(f, acc, gs) == if |gs| == 0 then acc else f(LogFrom(f, acc, gs)[|gs| - 1])
    decreases |gs|
  {
    if |gs| > 0 {
      var g := [acc] + gs[0];
      var tail := LogFrom(f, f(g), gs[1..]);
      LogFromShape(f, f(g), gs[1..]);
      var log := LogFrom(f, acc, gs);
      assert log == [g] + tail;
      forall i | 1 <= i < |gs| ensures log[i] == [f(log[i - 1])] + gs[i] {
        assert log[i] == tail[i - 1];
        assert gs[1..][i - 1] == gs[i];
        if i > 1 {
          assert log[i - 1] == tail[i - 2];
        }
      }
    }
  }

  /**
   * The call log of the grouped fold: one call per group, the first one on
   * the first group alone, each later one on the previous call's result
   * followed by its own group; the fold's value is the last call's result.
   */
  lemma CallLogShape<V>(f: seq<V> -> V, gs: seq<seq<V>>)
    requires |gs| > 0
    ensures |CallLog(f, gs)| == |gs|
    ensures CallLog(f, gs)[0] == gs[0]
    ensures forall i :: 1 <= i < |gs| ==> CallLog(f, gs)[i] == [f(CallLog(f, gs)[i - 1])] + gs[i]
    ensures FoldGroups(f, gs) == f(CallLog(f, gs)[|gs| - 1])
  {
    var tail := LogFrom(f, f(gs[0]), gs[1..]);
    LogFromShape(f, f(gs[0]), gs[1..]);
    var log := CallLog(f, gs);
    assert log == [gs[0]] + tail;
    forall i | 1 <= i < |gs| ensures log[i] == [f(log[i - 1])] + gs[i] {
      assert log[i] == tail[i - 1];
      assert gs[1..][i - 1] == gs[i];
      if i > 1 {
        assert log[i - 1] == tail[i - 2];
      }
    }
  }

  /**
   * For a count that passes the checks, the grouped fold calls f
   * 1 + (count - reqNum) / (reqNum - 1) times, each time with exactly reqNum
   * arguments, and its value is the last call's result.
   */
  lemma GroupedCallLog<V>(f: seq<V> -> V, values: seq<V>, reqNum: nat)
    requires reqNum >= 2 && |values| >= reqNum
    requires (|values| - 1) % (reqNum - 1) == 0
    ensures |CallLog(f, Groups(values, reqNum))| == 1 + (|values| - reqNum) / (reqNum - 1)
    ensures forall i :: 0 <= i < |CallLog(f, Groups(values, reqNum))| ==>
              |CallLog(f, Groups(values, reqNum))[i]| == reqNum
    ensures FoldGroups(f, Groups(values, reqNum))
            == f(CallLog(f, Groups(values, reqNum))[|CallLog(f, Groups(values, reqNum))| - 1])
  {
    var gs := Groups(values, reqNum);
    GroupsExact(values, reqNum);
    CallLogShape(f, gs);
    var log := CallLog(f, gs);
    forall i | 0 <= i < |log| ensures |log[i]| == reqNum {
      if i > 0 {
        assert log[i] == [f(log[i - 1])] + gs[i];
      }
    }
  }
}
