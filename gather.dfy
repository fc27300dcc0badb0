/** Collecting what a loop keeps: the values a partial function gives the
    elements of a sequence, in order, and the concatenation of nested
    sequences.  Shared by the row loops of the extractors. */
module Gathering {
  import opened Text


  /** The values `f` produces for the elements of `xs` (`f` also sees the
      position), in order, the elements it rejects skipped. */
  function Gather<T, U>(xs: seq<T>, f: (nat, T) -> Option<U>): (r: seq<U>)
    ensures |r| <= |xs|
  {
    if xs == [] then []
    else
      var n := |xs| - 1;
      var p := Gather(xs[..n], f);
      if f(n, xs[n]).Some? then p + [f(n, xs[n]).value] else p
  }

  /** One more element adds its value, if it has one, at the end. */
  lemma {:induction false} GatherSnoc<T, U>(xs: seq<T>, x: T, f: (nat, T) -> Option<U>)
    ensures Gather(xs + [x], f) ==
      if f(|xs|, x).Some? then Gather(xs, f) + [f(|xs|, x).value] else Gather(xs, f)
  {
    assert (xs + [x])[..|xs|] == xs;
  }

  /** Gathering one element further along the same sequence. */
  lemma {:induction false} GatherPrefix<T, U>(xs: seq<T>, n: nat, f: (nat, T) -> Option<U>)
    requires n < |xs|
    ensures Gather(xs[..n + 1], f) ==
      if f(n, xs[n]).Some? then Gather(xs[..n], f) + [f(n, xs[n]).value] else Gather(xs[..n], f)
  {
    assert xs[..n + 1][..n] == xs[..n];
  }

  /** Everything gathered comes from some element. */
  lemma {:induction false} GatherSound<T, U>(xs: seq<T>, f: (nat, T) -> Option<U>)
    ensures forall k :: 0 <= k < |Gather(xs, f)| ==>
      exists i :: 0 <= i < |xs| && f(i, xs[i]) == Some(Gather(xs, f)[k])
  {
    if xs == [] {
      assert Gather(xs, f) == [];
    } else {
      var n := |xs| - 1;
      GatherSound(xs[..n], f);
      var p := Gather(xs[..n], f);
      var g := Gather(xs, f);
      assert g == if f(n, xs[n]).Some? then p + [f(n, xs[n]).value] else p;
      forall k | 0 <= k < |g|
        ensures exists i :: 0 <= i < |xs| && f(i, xs[i]) == Some(g[k])
      {
        if k < |p| {
          var i :| 0 <= i < n && f(i, xs[..n][i]) == Some(p[k]);
          assert xs[..n][i] == xs[i];
          assert g[k] == p[k];
          assert 0 <= i < |xs| && f(i, xs[i]) == Some(g[k]);
        } else {
          assert f(n, xs[n]) == Some(g[k]);
        }
      }
    }
  }

  /** Every element with a value contributes it. */
  lemma {:induction false} GatherComplete<T, U>(xs: seq<T>, f: (nat, T) -> Option<U>, i: nat)
    requires i < |xs| && f(i, xs[i]).Some?
    ensures f(i, xs[i]).value in Gather(xs, f)
  {
    var n := |xs| - 1;
    if i < n {
      assert xs[..n][i] == xs[i];
      GatherComplete(xs[..n], f, i);
    }
  }

  /** Gathering a sequence whose first element yields nothing is gathering
      its tail with positions shifted by one. */
  lemma {:induction false} GatherShift<T, U>(xs: seq<T>, f: (nat, T) -> Option<U>, g: (nat, T) -> Option<U>)
    requires |xs| >= 1 && f(0, xs[0]).None?
    requires forall i :: 0 <= i < |xs| - 1 ==> g(i, xs[1..][i]) == f(i + 1, xs[i + 1])
    ensures Gather(xs, f) == Gather(xs[1..], g)
  {
    var n := |xs| - 1;
    if n > 0 {
      assert xs[..n][1..] == xs[1..][..n - 1];
      forall i | 0 <= i < |xs[..n]| - 1 ensures g(i, xs[..n][1..][i]) == f(i + 1, xs[..n][i + 1]) {
        assert xs[..n][1..][i] == xs[1..][i];
      }
      GatherShift(xs[..n], f, g);
      assert xs[1..][n - 1] == xs[n];
    }
  }

  /** The first position at or after `i` whose element `p` accepts: the
      `for ... : if ...: break` scans of the row parsers. */
  function FirstFrom<T>(xs: seq<T>, i: nat, p: T -> bool): (r: Option<nat>)
    requires i <= |xs|
    ensures r.Some? ==> i <= r.value < |xs| && p(xs[r.value])
    ensures r.Some? ==> forall j :: i <= j < r.value ==> !p(xs[j])
    ensures r.None? ==> forall j :: i <= j < |xs| ==> !p(xs[j])
    decreases |xs| - i
  {
    if i == |xs| then None
    else if p(xs[i]) then Some(i)
    else FirstFrom(xs, i + 1, p)
  }

  /** One element further: a rejected element leaves the scan's answer to
      the rest, an accepted one is the answer. */
  lemma FirstFromStep<T>(xs: seq<T>, i: nat, p: T -> bool)
    requires i < |xs|
    ensures FirstFrom(xs, i, p) == if p(xs[i]) then Some(i) else FirstFrom(xs, i + 1, p)
  {
  }

  /** The scan finds nothing exactly when no element is accepted. */
  lemma {:induction false} FirstFromNone<T>(xs: seq<T>, i: nat, p: T -> bool)
    requires i <= |xs|
    requires forall j :: i <= j < |xs| ==> !p(xs[j])
    ensures FirstFrom(xs, i, p).None?
    decreases |xs| - i
  {
    if i < |xs| {
      FirstFromNone(xs, i + 1, p);
    }
  }

  /** The sequences of `xss`, one after another. */
  function Concat<T>(xss: seq<seq<T>>): seq<T> {
    if xss == [] then [] else Concat(xss[..|xss| - 1]) + xss[|xss| - 1]
  }

  /** The rows of one more table. */
  lemma {:induction false} ConcatNext<T>(done: seq<T>, xss: seq<seq<T>>, t: nat)
    requires t < |xss|
    ensures done + Concat(xss[..t]) + xss[t][..|xss[t]|] == done + Concat(xss[..t + 1])
  {
    assert xss[..t + 1][..t] == xss[..t];
    assert xss[t][..|xss[t]|] == xss[t];
  }

  lemma {:induction false} AppendNext<T>(done: seq<T>, xs: seq<T>, r: nat)
    requires r < |xs|
    ensures done + xs[..r] + [xs[r]] == done + xs[..r + 1]
  {
    assert xs[..r + 1] == xs[..r] + [xs[r]];
  }

  /** For a position-blind `f`, gathering a concatenation is concatenating
      what each part gathers: `list.extend` of the parts' results. */
  lemma {:induction false} GatherAppend<T, U>(xs: seq<T>, ys: seq<T>, f: (nat, T) -> Option<U>)
    requires forall i: nat, x: T :: f(i, x) == f(0, x)
    ensures Gather(xs + ys, f) == Gather(xs, f) + Gather(ys, f)
    decreases |ys|
  {
    if ys == [] {
      assert xs + ys == xs;
    } else {
      var init, y := ys[..|ys| - 1], ys[|ys| - 1];
      GatherAppend(xs, init, f);
      assert f(|xs| + |init|, y) == f(0, y) == f(|init|, y);
      GatherAppendSnoc(xs, init, y, f);
      assert ys == init + [y];
    }
  }

  /** The step of `GatherAppend`: one more element at the end of `ys`. */
  lemma {:induction false} GatherAppendSnoc<T, U>(xs: seq<T>, init: seq<T>, y: T, f: (nat, T) -> Option<U>)
    requires Gather(xs + init, f) == Gather(xs, f) + Gather(init, f)
    requires f(|xs| + |init|, y) == f(|init|, y)
    ensures Gather(xs + (init + [y]), f) == Gather(xs, f) + Gather(init + [y], f)
  {
    var s := xs + init;
    assert xs + (init + [y]) == s + [y];
    GatherSnoc(s, y, f);
    GatherSnoc(init, y, f);
    assert |s| == |xs| + |init|;
    var v := f(|init|, y);
    var a, b := Gather(xs, f), Gather(init, f);
    if v.Some? {
      calc {
        Gather(s + [y], f);
        Gather(s, f) + [v.value];
        a + b + [v.value];
        a + (b + [v.value]);
        a + Gather(init + [y], f);
      }
    } else {
      assert Gather(s + [y], f) == Gather(s, f);
    }
  }

  /** For a position-blind `f`, one more part appends what that part gathers. */
  lemma {:induction false} GatherConcatNext<T, U>(xss: seq<seq<T>>, k: nat, f: (nat, T) -> Option<U>)
    requires k < |xss|
    requires forall i: nat, x: T :: f(i, x) == f(0, x)
    ensures Gather(Concat(xss[..k + 1]), f) == Gather(Concat(xss[..k]), f) + Gather(xss[k], f)
  {
    ConcatNext([], xss, k);
    assert xss[k][..|xss[k]|] == xss[k];
    assert [] + Concat(xss[..k]) == Concat(xss[..k]);
    assert [] + Concat(xss[..k + 1]) == Concat(xss[..k + 1]);
    GatherAppend(Concat(xss[..k]), xss[k], f);
  }
}
