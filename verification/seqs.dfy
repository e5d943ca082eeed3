/**
  The two shapes of list building in the extraction: a filtering loop that
  appends a value for some elements (`if ...: out.append(...)`), and a nested
  loop that appends the output of an inner loop for every element.
*/
module Seqs {
  import opened Options

  /** The values `f` yields for the elements of `xs`, in order, skipping those it rejects. */
  function FilterMap<A, B>(xs: seq<A>, f: A -> Option<B>): seq<B>
  {
    if xs == [] then []
    else
      var y := f(xs[|xs| - 1]);
      FilterMap(xs[..|xs| - 1], f) + (if y.Some? then [y.value] else [])
  }

  /** The outputs of `f` on the elements of `xs`, concatenated in order. */
  function FlatMap<A, B>(xs: seq<A>, f: A -> seq<B>): seq<B>
  {
    if xs == [] then [] else FlatMap(xs[..|xs| - 1], f) + f(xs[|xs| - 1])
  }

  /** Dropping the last element of a concatenation with a non-empty tail. */
  lemma SplitLast<T>(a: seq<T>, b: seq<T>)
    requires b != []
    ensures (a + b)[..|a + b| - 1] == a + b[..|b| - 1]
    ensures (a + b)[|a + b| - 1] == b[|b| - 1]
  {
  }

  /** Extending the input by one element extends the output by what that element yields. */
  lemma FilterMapSnoc<A, B>(xs: seq<A>, i: nat, f: A -> Option<B>)
    requires i < |xs|
    ensures FilterMap(xs[..i + 1], f) == FilterMap(xs[..i], f) + (if f(xs[i]).Some? then [f(xs[i]).value] else [])
  {
    assert xs[..i + 1][..i] == xs[..i];
  }

  /** Extending the input by one element extends the output by that element's output. */
  lemma FlatMapSnoc<A, B>(xs: seq<A>, i: nat, f: A -> seq<B>)
    requires i < |xs|
    ensures FlatMap(xs[..i + 1], f) == FlatMap(xs[..i], f) + f(xs[i])
  {
    assert xs[..i + 1][..i] == xs[..i];
  }

  /** Filtering distributes over concatenation: the output keeps the input order. */
  lemma {:induction false} FilterMapAppend<A, B>(a: seq<A>, b: seq<A>, f: A -> Option<B>)
    ensures FilterMap(a + b, f) == FilterMap(a, f) + FilterMap(b, f)
  {
    if b == [] {
      assert a + b == a;
    } else {
      SplitLast(a, b);
      FilterMapAppend(a, b[..|b| - 1], f);
    }
  }

  /** Filtering never produces more values than it is given elements. */
  lemma {:induction false} FilterMapLength<A, B>(xs: seq<A>, f: A -> Option<B>)
    ensures |FilterMap(xs, f)| <= |xs|
  {
    if xs != [] {
      FilterMapLength(xs[..|xs| - 1], f);
    }
  }

  /** Filtering produces fewer values than elements as soon as it rejects one of them. */
  lemma {:induction false} FilterMapRejects<A, B>(xs: seq<A>, f: A -> Option<B>, x: A)
    requires x in xs && f(x).None?
    ensures |FilterMap(xs, f)| < |xs|
  {
    var init, last := xs[..|xs| - 1], xs[|xs| - 1];
    assert xs == init + [last];
    FilterMapLength(init, f);
    if x != last {
      FilterMapRejects(init, f, x);
    }
  }

  /** A value is in the output exactly when some element of the input yields it. */
  lemma {:induction false} FilterMapMembership<A, B>(xs: seq<A>, f: A -> Option<B>, y: B)
    ensures y in FilterMap(xs, f) <==> exists x :: x in xs && f(x) == Some(y)
  {
    if xs != [] {
      var init, last := xs[..|xs| - 1], xs[|xs| - 1];
      assert xs == init + [last];
      FilterMapMembership(init, f, y);
      if exists x :: x in xs && f(x) == Some(y) {
        var x :| x in xs && f(x) == Some(y);
        if x !in init {
          assert x == last;
        }
      }
    }
  }

  /** Concatenating per-element outputs distributes over concatenation of the input. */
  lemma {:induction false} FlatMapAppend<A, B>(a: seq<A>, b: seq<A>, f: A -> seq<B>)
    ensures FlatMap(a + b, f) == FlatMap(a, f) + FlatMap(b, f)
  {
    if b == [] {
      assert a + b == a;
    } else {
      SplitLast(a, b);
      FlatMapAppend(a, b[..|b| - 1], f);
    }
  }

  /** A value is in the output exactly when it is in the output of some element. */
  lemma {:induction false} FlatMapMembership<A, B>(xs: seq<A>, f: A -> seq<B>, y: B)
    ensures y in FlatMap(xs, f) <==> exists x :: x in xs && y in f(x)
  {
    if xs != [] {
      var init, last := xs[..|xs| - 1], xs[|xs| - 1];
      assert xs == init + [last];
      FlatMapMembership(init, f, y);
      if exists x :: x in xs && y in f(x) {
        var x :| x in xs && y in f(x);
        if x !in init {
          assert x == last;
        }
      }
    }
  }
}
