/** The present values of a sequence of options, in order, and where each of
    them comes from. A filter that keeps some items and maps them is the
    values of one option per item. */
module Options {
  import opened Types

  /** The values of the `Some` options of `xs`, in order. */
  function Somes<T>(xs: seq<Option<T>>): (vs: seq<T>)
    ensures |vs| <= |xs|
    decreases |xs|
  {
    if xs == [] then []
    else
      var last := xs[|xs| - 1];
      Somes(xs[..|xs| - 1]) + (if last.Some? then [last.value] else [])
  }

  /** The positions before `j` that hold a `Some`. */
  function SomeBefore<T>(xs: seq<Option<T>>, j: nat): set<nat> {
    set i: nat | i < j && i < |xs| && xs[i].Some?
  }

  lemma SomeBeforeStep<T>(xs: seq<Option<T>>, j: nat)
    requires j < |xs|
    ensures |SomeBefore(xs, j + 1)| == |SomeBefore(xs, j)| + (if xs[j].Some? then 1 else 0)
  {
    var a := SomeBefore(xs, j);
    if xs[j].Some? {
      assert SomeBefore(xs, j + 1) == a + {j};
    } else {
      assert SomeBefore(xs, j + 1) == a;
    }
  }

  lemma SomeBeforeAll<T>(xs: seq<Option<T>>, j: nat)
    requires |xs| <= j
    ensures SomeBefore(xs, j) == SomeBefore(xs, |xs|)
  {
  }

  lemma SomeBeforeOfPrefix<T>(xs: seq<Option<T>>, j: nat)
    requires j <= |xs|
    ensures SomeBefore(xs[..j], j) == SomeBefore(xs, j)
  {
  }

  /** The values are as many as the `Some` positions. */
  lemma {:induction false} SomesCount<T>(xs: seq<Option<T>>)
    ensures |Somes(xs)| == |SomeBefore(xs, |xs|)|
    decreases |xs|
  {
    if xs == [] {
      assert SomeBefore(xs, 0) == {};
    } else {
      var init := xs[..|xs| - 1];
      SomesCount(init);
      SomeBeforeOfPrefix(xs, |xs| - 1);
      SomeBeforeStep(xs, |xs| - 1);
    }
  }

  /** The value at position `j` comes after one value per `Some` before it. */
  lemma {:induction false} SomesAt<T>(xs: seq<Option<T>>, j: nat)
    requires j < |xs| && xs[j].Some?
    ensures |SomeBefore(xs, j)| < |Somes(xs)|
    ensures Somes(xs)[|SomeBefore(xs, j)|] == xs[j].value
    decreases |xs|
  {
    var init := xs[..|xs| - 1];
    if j == |xs| - 1 {
      SomesCount(init);
      SomeBeforeOfPrefix(xs, j);
    } else {
      SomesAt(init, j);
      SomeBeforeOfPrefix(xs, j);
      SomeBeforeOfPrefix(init, j);
      assert xs[..j] == init[..j];
      assert xs[j] == init[j];
    }
  }

  /** Every value comes from a `Some` position, the one with exactly `k`
      `Some`s before it. */
  lemma {:induction false} SomesFrom<T>(xs: seq<Option<T>>, k: nat)
    requires k < |Somes(xs)|
    ensures exists j :: 0 <= j < |xs| && xs[j].Some? && |SomeBefore(xs, j)| == k && Somes(xs)[k] == xs[j].value
    decreases |xs|
  {
    var init := xs[..|xs| - 1];
    SomesCount(init);
    if k < |Somes(init)| {
      SomesFrom(init, k);
      var j :| 0 <= j < |init| && init[j].Some? && |SomeBefore(init, j)| == k && Somes(init)[k] == init[j].value;
      SomeBeforeOfPrefix(xs, |xs| - 1);
      SomeBeforeOfPrefix(init, j);
      assert xs[..j] == init[..j];
      SomeBeforeOfPrefix(xs, j);
      assert xs[j] == init[j];
    } else {
      var j := |xs| - 1;
      SomeBeforeOfPrefix(xs, j);
      assert xs[j].Some? && Somes(xs)[k] == xs[j].value;
    }
  }
}
