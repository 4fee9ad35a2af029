/** Sequences with one element put in or taken out, as the lists of the programs change. */
module Lists {
  import opened Text

  function At<T>(s: seq<T>, i: int): Option<T> {
    if 0 <= i < |s| then Some(s[i]) else None
  }

  lemma AtIs<T>(s: seq<T>, i: int)
    ensures At(s, i) == if 0 <= i < |s| then Some(s[i]) else None
  {
  }

  /** The index of the first element with a property, or the length. */
  function FirstIndex<T>(s: seq<T>, p: T -> bool): (i: nat)
    ensures i <= |s|
    ensures forall j :: 0 <= j < i ==> !p(s[j])
    ensures i < |s| ==> p(s[i])
  {
    if s == [] || p(s[0]) then 0 else 1 + FirstIndex(s[1..], p)
  }

  function Inserted<T>(s: seq<T>, p: nat, x: T): seq<T>
    requires p <= |s|
  {
    s[..p] + [x] + s[p..]
  }

  function Removed<T>(s: seq<T>, p: nat): seq<T>
    requires p < |s|
  {
    s[..p] + s[p + 1..]
  }

  lemma InsertedAt<T>(s: seq<T>, p: nat, x: T, i: int)
    requires p <= |s|
    ensures |Inserted(s, p, x)| == |s| + 1
    ensures At(Inserted(s, p, x), i) == if i < p then At(s, i) else if i == p then Some(x) else At(s, i - 1)
  {
  }

  lemma InsertedElement<T>(s: seq<T>, p: nat, x: T, i: nat)
    requires p <= |s| && i <= |s|
    ensures |Inserted(s, p, x)| == |s| + 1
    ensures Inserted(s, p, x)[i] == if i < p then s[i] else if i == p then x else s[i - 1]
  {
  }

  lemma RemovedAt<T>(s: seq<T>, p: nat, i: int)
    requires p < |s|
    ensures |Removed(s, p)| == |s| - 1
    ensures At(Removed(s, p), i) == if i < p then At(s, i) else At(s, i + 1)
  {
  }

  ghost predicate AllDifferent<T>(s: seq<T>) {
    forall i, j :: 0 <= i < j < |s| ==> s[i] != s[j]
  }

  lemma InsertedDifferent<T>(s: seq<T>, p: nat, x: T)
    requires p <= |s| && x !in s && AllDifferent(s)
    ensures AllDifferent(Inserted(s, p, x))
  {
    var r := Inserted(s, p, x);
    assert forall i :: 0 <= i < |r| ==> r[i] == if i < p then s[i] else if i == p then x else s[i - 1];
  }

  lemma RemovedDifferent<T>(s: seq<T>, p: nat)
    requires p < |s| && AllDifferent(s)
    ensures AllDifferent(Removed(s, p))
  {
  }

  lemma InsertedMembers<T>(s: seq<T>, p: nat, x: T)
    requires p <= |s|
    ensures var r := Inserted(s, p, x); |r| == |s| + 1 && r[p] == x && forall y :: y in r <==> y in s || y == x
  {
    assert s == s[..p] + s[p..];
  }

  lemma RemovedMembers<T>(s: seq<T>, p: nat)
    requires p < |s|
    ensures |Removed(s, p)| == |s| - 1 && forall y :: y in Removed(s, p) ==> y in s
  {
  }
}
