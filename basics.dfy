/** Vocabulary shared by every module: an optional value (Python's `None`
    or a value) and the order-preserving filter that list comprehensions
    of the form `[x for x in s if p(x)]` compute. */
module Basics {

  datatype Option<+T> = None | Some(value: T)

  /** `[x for x in s if p(x)]`: the elements of `s` that satisfy `p`, in order. */
  function Keep<T(!new)>(s: seq<T>, p: T -> bool): (r: seq<T>)
    ensures |r| <= |s|
    ensures forall x :: x in r ==> p(x) && x in s
    ensures forall x :: multiset(r)[x] == if p(x) then multiset(s)[x] else 0
  {
    if s == [] then []
    else
      assert s == [s[0]] + s[1..];
      (if p(s[0]) then [s[0]] else []) + Keep(s[1..], p)
  }

  /** Filtering a sequence with a known first element. */
  lemma KeepCons<T(!new)>(x: T, s: seq<T>, p: T -> bool)
    ensures Keep([x] + s, p) == (if p(x) then [x] else []) + Keep(s, p)
  {
    assert ([x] + s)[0] == x && ([x] + s)[1..] == s;
  }

  /** Filtering distributes over concatenation, so `Keep` never reorders:
      what it keeps from an earlier part comes before what it keeps from a
      later part. */
  lemma {:induction false} KeepAppend<T(!new)>(a: seq<T>, b: seq<T>, p: T -> bool)
    ensures Keep(a + b, p) == Keep(a, p) + Keep(b, p)
  {
    if a == [] {
      assert a + b == b;
    } else {
      var t := a[1..];
      SplitHead(a, b);
      KeepCons(a[0], t + b, p);
      KeepCons(a[0], t, p);
      KeepAppend(t, b, p);
      Associative(if p(a[0]) then [a[0]] else [], Keep(t, p), Keep(b, p));
    }
  }

  /** Concatenation is associative. */
  lemma Associative<T>(x: seq<T>, y: seq<T>, z: seq<T>)
    ensures x + (y + z) == (x + y) + z
  {
  }

  /** A non-empty sequence, alone and followed by another, as its first
      element and the rest. */
  lemma SplitHead<T>(a: seq<T>, b: seq<T>)
    requires a != []
    ensures a == [a[0]] + a[1..] && a + b == [a[0]] + (a[1..] + b)
  {
  }

  /** Keeping everything changes nothing. */
  lemma {:induction false} KeepAll<T(!new)>(s: seq<T>, p: T -> bool)
    requires forall x :: x in s ==> p(x)
    ensures Keep(s, p) == s
  {
    if s != [] {
      KeepAll(s[1..], p);
    }
  }

  /** Keeping nothing from a sequence none of whose elements qualifies. */
  lemma {:induction false} KeepNone<T(!new)>(s: seq<T>, p: T -> bool)
    requires forall i :: 0 <= i < |s| ==> !p(s[i])
    ensures Keep(s, p) == []
  {
    if s != [] {
      KeepNone(s[1..], p);
    }
  }

  /** Two sequences of one length that agree wherever either has an element
      that qualifies keep the same elements. */
  lemma {:induction false} KeepAgree<T(!new)>(a: seq<T>, b: seq<T>, p: T -> bool)
    requires |a| == |b|
    requires forall i :: 0 <= i < |a| && (p(a[i]) || p(b[i])) ==> a[i] == b[i]
    ensures Keep(a, p) == Keep(b, p)
  {
    if a != [] {
      KeepAgree(a[1..], b[1..], p);
    }
  }

  /** Filtering a sequence whose two ends hold nothing that qualifies keeps
      only what its middle keeps. */
  lemma KeepMiddle<T(!new)>(a: seq<T>, m: seq<T>, b: seq<T>, p: T -> bool)
    requires forall i :: 0 <= i < |a| ==> !p(a[i])
    requires forall i :: 0 <= i < |b| ==> !p(b[i])
    ensures Keep(a + m + b, p) == Keep(m, p)
  {
    KeepAppend(a + m, b, p);
    KeepAppend(a, m, p);
    KeepNone(a, p);
    KeepNone(b, p);
  }

  /** An element is kept exactly when it occurs and qualifies. */
  lemma KeepMembers<T(!new)>(s: seq<T>, p: T -> bool)
    ensures forall x :: x in Keep(s, p) <==> x in s && p(x)
  {
    forall x | x in s && p(x) ensures x in Keep(s, p) {
      assert multiset(s)[x] > 0;
    }
  }
}
