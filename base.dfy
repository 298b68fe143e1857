/** Values shared by every part of the listing model. */
module Base {

  /** Python's `None` versus a present value. */
  datatype Option<T> = None | Some(value: T)

  /** Powers of ten: the place values of a run of digits and the denominator of a decimal fraction. */
  function Pow10(n: nat): (r: nat)
    ensures r >= 1
  {
    if n == 0 then 1 else 10 * Pow10(n - 1)
  }

  /** Whether some element of `xs` has the key `k`. */
  predicate HasKey<T, K(==)>(xs: seq<T>, key: T -> K, k: K) {
    exists j :: 0 <= j < |xs| && key(xs[j]) == k
  }

  /**
   * `drop_duplicates(keep="first")` on the column(s) `key` gives: the rows whose key
   * has not been seen in an earlier row, in their original order.
   */
  function KeepFirst<T, K(==)>(xs: seq<T>, key: T -> K): (r: seq<T>)
    ensures |r| <= |xs|
    ensures forall i :: 0 <= i < |r| ==> HasKey(xs, key, key(r[i]))
  {
    if xs == [] then []
    else
      var init := xs[..|xs| - 1];
      var x := xs[|xs| - 1];
      var kept := KeepFirst(init, key);
      assert forall i :: 0 <= i < |kept| ==> HasKey(xs, key, key(kept[i])) by {
        forall i | 0 <= i < |kept| ensures HasKey(xs, key, key(kept[i])) {
          var j :| 0 <= j < |init| && key(init[j]) == key(kept[i]);
          assert xs[j] == init[j];
        }
      }
      if HasKey(init, key, key(x)) then kept
      else
        assert key(xs[|xs| - 1]) == key(x);
        kept + [x]
  }

  /** After de-duplication no two rows share a key. */
  lemma {:induction false} KeepFirstDistinct<T, K>(xs: seq<T>, key: T -> K)
    ensures forall i, j :: 0 <= i < j < |KeepFirst(xs, key)| ==>
              key(KeepFirst(xs, key)[i]) != key(KeepFirst(xs, key)[j])
  {
    if xs != [] {
      var init := xs[..|xs| - 1];
      var x := xs[|xs| - 1];
      var kept := KeepFirst(init, key);
      assert KeepFirst(xs, key) == if HasKey(init, key, key(x)) then kept else kept + [x];
      KeepFirstDistinct(init, key);
      KeepFirstKeys(init, key);
      if !HasKey(init, key, key(x)) {
        var r := kept + [x];
        forall i, j | 0 <= i < j < |r| ensures key(r[i]) != key(r[j]) {
          if j == |kept| {
            assert r[i] == kept[i];
            assert !HasKey(kept, key, key(x));
            assert r[j] == x;
          } else {
            assert r[i] == kept[i] && r[j] == kept[j];
          }
        }
      }
    }
  }

  /** De-duplication loses no key. */
  lemma {:induction false} KeepFirstKeys<T, K>(xs: seq<T>, key: T -> K)
    ensures forall k :: HasKey(KeepFirst(xs, key), key, k) <==> HasKey(xs, key, k)
  {
    if xs != [] {
      var init := xs[..|xs| - 1];
      var x := xs[|xs| - 1];
      var kept := KeepFirst(init, key);
      KeepFirstKeys(init, key);
      forall k | HasKey(xs, key, k) ensures HasKey(KeepFirst(xs, key), key, k) {
        var j :| 0 <= j < |xs| && key(xs[j]) == k;
        if j < |xs| - 1 {
          assert key(init[j]) == k;
          assert HasKey(kept, key, k);
          var i :| 0 <= i < |kept| && key(kept[i]) == k;
          if !HasKey(init, key, key(x)) { assert (kept + [x])[i] == kept[i]; }
        } else if HasKey(init, key, key(x)) {
          assert HasKey(kept, key, k);
        } else {
          assert (kept + [x])[|kept|] == x;
        }
      }
    }
  }

  /**
   * Each row kept is the first row of the input with its key: it occurs at some index
   * of the input before which no row has that key.
   */
  lemma {:induction false} KeepFirstKeepsFirst<T, K>(xs: seq<T>, key: T -> K)
    ensures forall i :: 0 <= i < |KeepFirst(xs, key)| ==> KeptFirstAt(xs, key, KeepFirst(xs, key)[i])
  {
    if xs != [] {
      var init := xs[..|xs| - 1];
      var x := xs[|xs| - 1];
      var kept := KeepFirst(init, key);
      KeepFirstKeepsFirst(init, key);
      var r := KeepFirst(xs, key);
      assert r == if HasKey(init, key, key(x)) then kept else kept + [x];
      forall i | 0 <= i < |r|
        ensures KeptFirstAt(xs, key, r[i])
      {
        if i < |kept| {
          assert r[i] == kept[i];
          assert KeptFirstAt(init, key, kept[i]);
          var j :| 0 <= j < |init| && init[j] == kept[i] && !HasKey(init[..j], key, key(kept[i]));
          assert xs[..j] == init[..j];
          assert xs[j] == r[i];
        } else {
          assert r[i] == x && !HasKey(init, key, key(x));
          assert xs[..|xs| - 1] == init;
        }
      }
    }
  }

  /** `x` occurs in `xs` at an index before which no row has its key. */
  ghost predicate KeptFirstAt<T, K>(xs: seq<T>, key: T -> K, x: T) {
    exists j :: 0 <= j < |xs| && xs[j] == x && !HasKey(xs[..j], key, key(x))
  }

  /**
   * The positions of `xs` at which a key occurs for the first time, in increasing
   * order: a position is listed exactly when no earlier row has its key.
   */
  function FirstIndices<T, K(==)>(xs: seq<T>, key: T -> K): (r: seq<nat>)
    ensures forall i :: 0 <= i < |r| ==> r[i] < |xs|
    ensures forall i, i' :: 0 <= i < i' < |r| ==> r[i] < r[i']
    ensures forall j :: 0 <= j < |xs| ==> (j in r <==> !HasKey(xs[..j], key, key(xs[j])))
  {
    if xs == [] then []
    else
      var n := |xs| - 1;
      var init := xs[..n];
      var r := FirstIndices(init, key);
      assert forall j :: 0 <= j < n ==> xs[..j] == init[..j];
      if HasKey(init, key, key(xs[n])) then
        assert n !in r;
        r
      else
        r + [n]
  }

  /** The elements of `xs` at the positions `idx`, in the order of `idx`. */
  function Pick<T>(xs: seq<T>, idx: seq<nat>): (r: seq<T>)
    requires forall i :: 0 <= i < |idx| ==> idx[i] < |xs|
    ensures |r| == |idx| && forall i :: 0 <= i < |idx| ==> r[i] == xs[idx[i]]
  {
    if idx == [] then [] else Pick(xs, idx[..|idx| - 1]) + [xs[idx[|idx| - 1]]]
  }

  /**
   * `keep="first"` pinned down by position: de-duplication gives the rows at the
   * first occurrences of their keys, in the order of those positions.
   */
  lemma {:induction false} KeepFirstAtFirstIndices<T, K>(xs: seq<T>, key: T -> K)
    ensures KeepFirst(xs, key) == Pick(xs, FirstIndices(xs, key))
  {
    if xs != [] {
      var init := xs[..|xs| - 1];
      var fi := FirstIndices(init, key);
      var x := xs[|xs| - 1];
      KeepFirstAtFirstIndices(init, key);
      PickPrefix(init, xs, fi);
      if !HasKey(init, key, key(x)) {
        PickSnoc(xs, fi, |xs| - 1);
      }
    }
  }

  /** Picking one more position appends its element. */
  lemma PickSnoc<T>(xs: seq<T>, idx: seq<nat>, n: nat)
    requires n < |xs| && forall i :: 0 <= i < |idx| ==> idx[i] < |xs|
    ensures Pick(xs, idx + [n]) == Pick(xs, idx) + [xs[n]]
  {
    assert (idx + [n])[..|idx|] == idx;
  }

  /** Picking positions of a prefix from the whole sequence picks the same elements. */
  lemma PickPrefix<T>(init: seq<T>, xs: seq<T>, idx: seq<nat>)
    requires init <= xs
    requires forall i :: 0 <= i < |idx| ==> idx[i] < |init|
    ensures Pick(xs, idx) == Pick(init, idx)
  {
    assert forall i :: 0 <= i < |idx| ==> xs[idx[i]] == init[idx[i]];
  }

  /** Rows whose keys are already distinct are all kept, in order. */
  lemma {:induction false} KeepFirstOfDistinct<T, K>(xs: seq<T>, key: T -> K)
    requires forall i, j :: 0 <= i < j < |xs| ==> key(xs[i]) != key(xs[j])
    ensures KeepFirst(xs, key) == xs
  {
    if xs != [] {
      var init := xs[..|xs| - 1];
      KeepFirstOfDistinct(init, key);
      assert !HasKey(init, key, key(xs[|xs| - 1]));
      assert init + [xs[|xs| - 1]] == xs;
    }
  }

  /** De-duplicating twice is de-duplicating once. */
  lemma KeepFirstIdempotent<T, K>(xs: seq<T>, key: T -> K)
    ensures KeepFirst(KeepFirst(xs, key), key) == KeepFirst(xs, key)
  {
    KeepFirstDistinct(xs, key);
    KeepFirstOfDistinct(KeepFirst(xs, key), key);
  }

  /** The elements of `xs` that satisfy `p`, in order (a boolean-mask selection). */
  function Filter<T>(xs: seq<T>, p: T -> bool): (r: seq<T>)
    ensures |r| <= |xs|
    ensures forall i :: 0 <= i < |r| ==> p(r[i])
  {
    if xs == [] then []
    else
      var init := Filter(xs[..|xs| - 1], p);
      if p(xs[|xs| - 1]) then init + [xs[|xs| - 1]] else init
  }

  /** Nothing that satisfies `p` is lost, and nothing new appears. */
  lemma {:induction false} FilterMembers<T>(xs: seq<T>, p: T -> bool)
    ensures forall x :: x in Filter(xs, p) <==> x in xs && p(x)
  {
    if xs != [] {
      var init := xs[..|xs| - 1];
      FilterMembers(init, p);
      assert xs == init + [xs[|xs| - 1]];
    }
  }

  /** Selecting by a test every element passes selects everything. */
  lemma {:induction false} FilterAll<T>(xs: seq<T>, p: T -> bool)
    requires forall i :: 0 <= i < |xs| ==> p(xs[i])
    ensures Filter(xs, p) == xs
  {
    if xs != [] {
      FilterAll(xs[..|xs| - 1], p);
      assert xs[..|xs| - 1] + [xs[|xs| - 1]] == xs;
    }
  }

  /**
   * `xs` is `ys` with some elements removed and the rest kept in order, matching
   * from the end of both.
   */
  ghost predicate Subseq<T>(xs: seq<T>, ys: seq<T>)
    decreases |ys|
  {
    xs == [] ||
    (ys != [] &&
     if xs[|xs| - 1] == ys[|ys| - 1] then Subseq(xs[..|xs| - 1], ys[..|ys| - 1])
     else Subseq(xs, ys[..|ys| - 1]))
  }

  /** A longer source keeps a subsequence a subsequence. */
  lemma {:induction false} SubseqExtend<T>(xs: seq<T>, ys: seq<T>, y: T)
    requires Subseq(xs, ys)
    ensures Subseq(xs, ys + [y])
    decreases |ys|, 1
  {
    var zs := ys + [y];
    assert zs[..|zs| - 1] == ys;
    if xs != [] && xs[|xs| - 1] == y {
      SubseqDropLast(xs, ys);
    }
  }

  /** Dropping the last element of a subsequence leaves a subsequence. */
  lemma {:induction false} SubseqDropLast<T>(xs: seq<T>, ys: seq<T>)
    requires xs != [] && Subseq(xs, ys)
    ensures Subseq(xs[..|xs| - 1], ys)
    decreases |ys|, 0
  {
    var init := ys[..|ys| - 1];
    assert init + [ys[|ys| - 1]] == ys;
    if xs[|xs| - 1] == ys[|ys| - 1] {
      SubseqExtend(xs[..|xs| - 1], init, ys[|ys| - 1]);
    } else {
      SubseqDropLast(xs, init);
      SubseqExtend(xs[..|xs| - 1], init, ys[|ys| - 1]);
    }
  }

  /** Every sequence is a subsequence of itself. */
  lemma {:induction false} SubseqRefl<T>(xs: seq<T>)
    ensures Subseq(xs, xs)
  {
    if xs != [] {
      SubseqRefl(xs[..|xs| - 1]);
    }
  }

  /** Subsequences of subsequences are subsequences. */
  lemma {:induction false} SubseqTrans<T>(xs: seq<T>, ys: seq<T>, zs: seq<T>)
    requires Subseq(xs, ys) && Subseq(ys, zs)
    ensures Subseq(xs, zs)
    decreases |zs|
  {
    if xs != [] {
      var zi := zs[..|zs| - 1];
      assert zi + [zs[|zs| - 1]] == zs;
      if ys[|ys| - 1] == zs[|zs| - 1] {
        var yi := ys[..|ys| - 1];
        if xs[|xs| - 1] == ys[|ys| - 1] {
          SubseqTrans(xs[..|xs| - 1], yi, zi);
        } else {
          SubseqTrans(xs, yi, zi);
          SubseqExtend(xs, zi, zs[|zs| - 1]);
        }
      } else {
        SubseqTrans(xs, ys, zi);
        SubseqExtend(xs, zi, zs[|zs| - 1]);
      }
    }
  }

  /** De-duplication keeps the surviving rows in their original order. */
  lemma {:induction false} KeepFirstIsSubseq<T, K>(xs: seq<T>, key: T -> K)
    ensures Subseq(KeepFirst(xs, key), xs)
  {
    if xs != [] {
      var init := xs[..|xs| - 1];
      KeepFirstIsSubseq(init, key);
      var k := KeepFirst(init, key);
      assert init + [xs[|xs| - 1]] == xs;
      if HasKey(init, key, key(xs[|xs| - 1])) {
        SubseqExtend(k, init, xs[|xs| - 1]);
      } else {
        assert (k + [xs[|xs| - 1]])[..|k|] == k;
      }
    }
  }

  /** Selection keeps the selected elements in their original order. */
  lemma {:induction false} FilterIsSubseq<T>(xs: seq<T>, p: T -> bool)
    ensures Subseq(Filter(xs, p), xs)
  {
    if xs != [] {
      var init := xs[..|xs| - 1];
      FilterIsSubseq(init, p);
      var f := Filter(init, p);
      assert init + [xs[|xs| - 1]] == xs;
      if p(xs[|xs| - 1]) {
        assert (f + [xs[|xs| - 1]])[..|f|] == f;
      } else {
        SubseqExtend(f, init, xs[|xs| - 1]);
      }
    }
  }
}
