/** Order-preserving filtering and flattening, the two shapes the IR builder is made of. */
module Sequences {
  import opened Wrappers

  /** The values present in `xs`, in order: an order-preserving filter. */
  function Present<T>(xs: seq<Option<T>>): (r: seq<T>)
    ensures |r| <= |xs|
    decreases |xs|
  {
    if |xs| == 0 then []
    else (if xs[0].Some? then [xs[0].value] else []) + Present(xs[1..])
  }

  /** The concatenation of `xss`, in order. */
  function Concat<T>(xss: seq<seq<T>>): seq<T>
    decreases |xss|
  {
    if |xss| == 0 then [] else xss[0] + Concat(xss[1..])
  }

  lemma {:induction false} PresentAppend<T>(a: seq<Option<T>>, b: seq<Option<T>>)
    ensures Present(a + b) == Present(a) + Present(b)
    decreases |a|
  {
    if |a| > 0 {
      assert (a + b)[1..] == a[1..] + b;
      PresentAppend(a[1..], b);
    } else {
      assert a + b == b;
    }
  }

  /** A present value sits right after the values present before it. */
  lemma PresentPosition<T>(xs: seq<Option<T>>, i: nat)
    requires i < |xs| && xs[i].Some?
    ensures |Present(xs[..i])| < |Present(xs)|
    ensures Present(xs)[|Present(xs[..i])|] == xs[i].value
  {
    assert xs == xs[..i] + ([xs[i]] + xs[i + 1..]);
    PresentAppend(xs[..i], [xs[i]] + xs[i + 1..]);
    assert ([xs[i]] + xs[i + 1..])[1..] == xs[i + 1..];
  }

  /** Two present values keep their relative order. */
  lemma PresentKeepsOrder<T>(xs: seq<Option<T>>, i: nat, j: nat)
    requires i < j < |xs| && xs[i].Some? && xs[j].Some?
    ensures |Present(xs[..i])| < |Present(xs[..j])| < |Present(xs)|
    ensures Present(xs)[|Present(xs[..i])|] == xs[i].value
    ensures Present(xs)[|Present(xs[..j])|] == xs[j].value
  {
    PresentPosition(xs, i);
    PresentPosition(xs, j);
    assert xs[..j] == xs[..i] + xs[i..j];
    PresentAppend(xs[..i], xs[i..j]);
    assert xs[i..j] == [xs[i]] + xs[i + 1..j];
  }

  /** Every value of the filter comes from some position of the input. */
  lemma {:induction false} PresentFrom<T>(xs: seq<Option<T>>, k: nat)
    requires k < |Present(xs)|
    ensures exists i :: 0 <= i < |xs| && xs[i] == Some(Present(xs)[k])
    decreases |xs|
  {
    var head := if xs[0].Some? then [xs[0].value] else [];
    if k < |head| {
      assert xs[0] == Some(Present(xs)[k]);
    } else {
      PresentFrom(xs[1..], k - |head|);
      var i :| 0 <= i < |xs[1..]| && xs[1..][i] == Some(Present(xs[1..])[k - |head|]);
      assert xs[i + 1] == Some(Present(xs)[k]);
    }
  }

  /** When every value is present, the filter keeps them all, position for position. */
  lemma {:induction false} PresentAllPresent<T>(xs: seq<Option<T>>)
    requires forall i :: 0 <= i < |xs| ==> xs[i].Some?
    ensures |Present(xs)| == |xs|
    ensures forall i :: 0 <= i < |xs| ==> xs[i] == Some(Present(xs)[i])
    decreases |xs|
  {
    if |xs| > 0 {
      PresentAllPresent(xs[1..]);
      forall i | 0 <= i < |xs|
        ensures xs[i] == Some(Present(xs)[i])
      {
        if i > 0 { assert xs[i] == xs[1..][i - 1]; }
      }
    }
  }

  /** The concatenation is empty exactly when every part is. */
  lemma {:induction false} ConcatEmpty<T>(xss: seq<seq<T>>)
    ensures Concat(xss) == [] <==> forall i :: 0 <= i < |xss| ==> xss[i] == []
    decreases |xss|
  {
    if |xss| > 0 {
      ConcatEmpty(xss[1..]);
      if Concat(xss) == [] {
        forall i | 0 <= i < |xss|
          ensures xss[i] == []
        {
          if i > 0 { assert xss[i] == xss[1..][i - 1]; }
        }
      }
    }
  }
}
