/** Result types shared by the modules of the model, and the two folds over
    sequences the parsers share. */
module Wrappers {

  /** A value that may be absent (Python's `None`, or a lookup that found nothing). */
  datatype Option<+T> = None | Some(value: T)

  /** What a Python call does: it returns a value, or it raises an exception.
      The exception is named by its Python class (`IndexError`, `TypeError`, ...). */
  datatype Outcome<+T> = Returned(value: T) | Raised(exception: string)

  /** The values present, in order. */
  function Present<T>(os: seq<Option<T>>): seq<T>
    decreases |os|
  {
    if os == [] then []
    else
      var last := os[|os| - 1];
      Present(os[..|os| - 1]) + (if last.Some? then [last.value] else [])
  }

  lemma {:induction false} PresentMembers<T>(os: seq<Option<T>>, n: T)
    ensures n in Present(os) <==> exists i :: 0 <= i < |os| && os[i] == Some(n)
    decreases |os|
  {
    if os != [] {
      var p := os[..|os| - 1];
      PresentMembers(p, n);
      if exists i :: 0 <= i < |p| && p[i] == Some(n) {
        var i :| 0 <= i < |p| && p[i] == Some(n);
        assert os[i] == p[i];
      }
      if exists i :: 0 <= i < |os| && os[i] == Some(n) {
        var i :| 0 <= i < |os| && os[i] == Some(n);
        if i < |p| {
          assert p[i] == os[i];
        }
      }
    }
  }

  lemma {:induction false} PresentAppend<T>(a: seq<Option<T>>, b: seq<Option<T>>)
    ensures Present(a + b) == Present(a) + Present(b)
    decreases |b|
  {
    if b == [] {
      assert a + b == a;
    } else {
      assert (a + b)[..|a + b| - 1] == a + b[..|b| - 1];
      PresentAppend(a, b[..|b| - 1]);
    }
  }

  /** `f` applied to each element, in order. */
  function MapSeq<A, B>(f: A -> B, xs: seq<A>): (ys: seq<B>)
    ensures |ys| == |xs|
    decreases |xs|
  {
    if xs == [] then [] else MapSeq(f, xs[..|xs| - 1]) + [f(xs[|xs| - 1])]
  }

  lemma {:induction false} MapSeqAt<A, B>(f: A -> B, xs: seq<A>, i: nat)
    requires i < |xs|
    ensures MapSeq(f, xs)[i] == f(xs[i])
    decreases |xs|
  {
    if i < |xs| - 1 {
      MapSeqAt(f, xs[..|xs| - 1], i);
    }
  }

  lemma MapSeqAppend<A, B>(f: A -> B, xs: seq<A>, ys: seq<A>)
    ensures MapSeq(f, xs + ys) == MapSeq(f, xs) + MapSeq(f, ys)
  {
    var l, r := MapSeq(f, xs + ys), MapSeq(f, xs) + MapSeq(f, ys);
    forall k | 0 <= k < |l| ensures l[k] == r[k] {
      MapSeqAt(f, xs + ys, k);
      if k < |xs| {
        MapSeqAt(f, xs, k);
      } else {
        MapSeqAt(f, ys, k - |xs|);
      }
    }
  }
}
