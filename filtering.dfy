/**
 * The order-preserving filter behind every "append to a list inside a loop"
 * in the editor code: walk the input in order and keep what the test accepts.
 */
module Filtering {

  /** The elements of `s` that satisfy `keep`, in their order in `s`. */
  function Keep<T>(s: seq<T>, keep: T -> bool): seq<T> {
    if s == [] then []
    else Keep(s[..|s| - 1], keep) + (if keep(s[|s| - 1]) then [s[|s| - 1]] else [])
  }

  /** One more step of a filtering loop: the next element is kept or skipped. */
  lemma KeepStep<T>(s: seq<T>, i: nat, keep: T -> bool)
    requires i < |s|
    ensures Keep(s[..i + 1], keep) == Keep(s[..i], keep) + (if keep(s[i]) then [s[i]] else [])
  {
    assert s[..i + 1][..i] == s[..i];
  }

  /** Exactly the elements that pass the test are kept. */
  lemma {:induction false} KeepMembers<T>(s: seq<T>, keep: T -> bool, x: T)
    ensures x in Keep(s, keep) <==> x in s && keep(x)
  {
    if s != [] {
      var init := s[..|s| - 1];
      KeepMembers(init, keep, x);
      assert s == init + [s[|s| - 1]];
    }
  }

  /** Every kept element passes the test, and nothing is invented. */
  lemma {:induction false} KeepAllPass<T>(s: seq<T>, keep: T -> bool)
    ensures |Keep(s, keep)| <= |s|
    ensures forall k :: 0 <= k < |Keep(s, keep)| ==> keep(Keep(s, keep)[k])
  {
    if s != [] {
      KeepAllPass(s[..|s| - 1], keep);
    }
  }

  /**
   * Order preservation: filtering a concatenation is concatenating the
   * filtered parts, so kept elements appear in the order of the input.
   */
  lemma {:induction false} KeepAppend<T>(a: seq<T>, b: seq<T>, keep: T -> bool)
    ensures Keep(a + b, keep) == Keep(a, keep) + Keep(b, keep)
    decreases |b|
  {
    if b == [] {
      assert a + b == a;
    } else {
      var binit := b[..|b| - 1];
      assert (a + b)[..|a + b| - 1] == a + binit;
      KeepAppend(a, binit, keep);
    }
  }

  /** The image of a sequence under `f`, element by element. */
  function MapSeq<T, U>(s: seq<T>, f: T -> U): (r: seq<U>)
    ensures |r| == |s|
    ensures forall k :: 0 <= k < |s| ==> r[k] == f(s[k])
  {
    if s == [] then [] else MapSeq(s[..|s| - 1], f) + [f(s[|s| - 1])]
  }

  /** Mapping distributes over concatenation. */
  lemma MapSeqAppend<T, U>(a: seq<T>, b: seq<T>, f: T -> U)
    ensures MapSeq(a + b, f) == MapSeq(a, f) + MapSeq(b, f)
  {
  }

  /** The image of a sequence holds exactly the images of its elements. */
  lemma MapSeqMembers<T, U>(s: seq<T>, f: T -> U, y: U)
    ensures y in MapSeq(s, f) <==> exists x :: x in s && f(x) == y
  {
  }
}
