/** Order-preserving filtering and mapping of sequences, as a Python loop that
    appends to a fresh list builds them. */
module Lists {

  /** The elements of `xs` that satisfy `keep`, in their original order. */
  function Keep<T>(keep: T -> bool, xs: seq<T>): (r: seq<T>)
    ensures |r| <= |xs|
  {
    if xs == [] then []
    else Keep(keep, xs[..|xs| - 1]) + (if keep(xs[|xs| - 1]) then [xs[|xs| - 1]] else [])
  }

  /** Exactly the elements that pass are kept. */
  lemma {:induction false} KeepMembers<T>(keep: T -> bool, xs: seq<T>)
    ensures forall i :: 0 <= i < |Keep(keep, xs)| ==> Keep(keep, xs)[i] in xs && keep(Keep(keep, xs)[i])
    ensures forall i :: 0 <= i < |xs| && keep(xs[i]) ==> xs[i] in Keep(keep, xs)
    decreases |xs|
  {
    if xs != [] {
      var front := xs[..|xs| - 1];
      KeepMembers(keep, front);
      forall i | 0 <= i < |front|
        ensures front[i] in xs
      {
        assert front[i] == xs[i];
      }
    }
  }

  /** Membership in the filtered sequence, element-wise. */
  lemma {:induction false} InKeep<T>(keep: T -> bool, xs: seq<T>, x: T)
    ensures x in Keep(keep, xs) <==> x in xs && keep(x)
  {
    KeepMembers(keep, xs);
    if x in Keep(keep, xs) {
      var i :| 0 <= i < |Keep(keep, xs)| && Keep(keep, xs)[i] == x;
    }
    if x in xs && keep(x) {
      var i :| 0 <= i < |xs| && xs[i] == x;
    }
  }

  /** A non-empty sequence is its head followed by its tail. */
  lemma {:induction false} HeadTail<T>(s: seq<T>)
    requires |s| > 0
    ensures s == [s[0]] + s[1..]
  {
  }

  /** Concatenation is associative. */
  lemma {:induction false} AppendAssoc<T>(a: seq<T>, b: seq<T>, c: seq<T>)
    ensures (a + b) + c == a + (b + c)
  {
  }

  /** Filtering a concatenation filters each part: nothing in `a` affects what
      is kept of `b`. */
  lemma {:induction false} KeepAppend<T>(keep: T -> bool, a: seq<T>, b: seq<T>)
    ensures Keep(keep, a + b) == Keep(keep, a) + Keep(keep, b)
    decreases |b|
  {
    if b == [] {
      assert a + b == a;
    } else {
      var b' := b[..|b| - 1];
      assert (a + b)[..|a + b| - 1] == a + b';
      assert (a + b)[|a + b| - 1] == b[|b| - 1];
      KeepAppend(keep, a, b');
    }
  }

  /** A one-element sequence is kept exactly when its element passes. */
  lemma {:induction false} KeepSingleton<T>(keep: T -> bool, x: T)
    ensures Keep(keep, [x]) == if keep(x) then [x] else []
  {
    assert [x][..0] == [];
  }

  /** When nothing passes, nothing is kept. */
  lemma {:induction false} KeepNone<T>(keep: T -> bool, xs: seq<T>)
    requires forall i :: 0 <= i < |xs| ==> !keep(xs[i])
    ensures Keep(keep, xs) == []
    decreases |xs|
  {
    if xs != [] {
      var front := xs[..|xs| - 1];
      assert forall i :: 0 <= i < |front| ==> !keep(front[i]) by {
        forall i | 0 <= i < |front|
          ensures !keep(front[i])
        {
          assert front[i] == xs[i];
        }
      }
      KeepNone(keep, front);
    }
  }

  /** f applied to every element, in order. */
  function Map<A, B>(f: A -> B, xs: seq<A>): (ys: seq<B>)
    ensures |ys| == |xs|
    ensures forall i :: 0 <= i < |xs| ==> ys[i] == f(xs[i])
  {
    seq(|xs|, i requires 0 <= i < |xs| => f(xs[i]))
  }

  /** Mapping a concatenation maps each part. */
  lemma {:induction false} MapAppend<A, B>(f: A -> B, a: seq<A>, b: seq<A>)
    ensures Map(f, a + b) == Map(f, a) + Map(f, b)
  {
    forall i | 0 <= i < |a + b|
      ensures Map(f, a + b)[i] == (Map(f, a) + Map(f, b))[i]
    {
      if i < |a| {
        assert (a + b)[i] == a[i];
      } else {
        assert (a + b)[i] == b[i - |a|];
      }
    }
  }
}
