/** Duplicate-free sequences, and the removal of one element from such a sequence. */
module Seqs {

  datatype Option<+T> = None | Some(value: T)

  ghost predicate Distinct<T>(s: seq<T>)
  {
    forall i, j :: 0 <= i < j < |s| ==> s[i] != s[j]
  }

  /** `s` without its first occurrence of `x`; `s` itself if `x` does not occur. */
  function Without<T(==)>(s: seq<T>, x: T): seq<T>
  {
    if s == [] then []
    else if s[0] == x then s[1..]
    else [s[0]] + Without(s[1..], x)
  }

  lemma {:induction false} WithoutAt<T>(s: seq<T>, k: nat)
    requires k < |s| && Distinct(s)
    ensures Without(s, s[k]) == s[..k] + s[k + 1..]
  {
    if k == 0 {
      assert s[..0] + s[1..] == s[1..];
    } else {
      WithoutAt(s[1..], k - 1);
      assert s[1..][..k - 1] == s[1..k];
      assert s[1..][k - 1 + 1..] == s[k + 1..];
      assert [s[0]] + (s[1..k] + s[k + 1..]) == s[..k] + s[k + 1..];
    }
  }

  lemma CutDistinct<T>(s: seq<T>, k: nat)
    requires k < |s| && Distinct(s)
    ensures Distinct(s[..k] + s[k + 1..])
  {
    var r := s[..k] + s[k + 1..];
    assert forall i :: 0 <= i < |r| ==> r[i] == s[if i < k then i else i + 1];
  }

  lemma CutMember<T>(s: seq<T>, k: nat, y: T)
    requires k < |s| && Distinct(s)
    ensures y in s[..k] + s[k + 1..] <==> y in s && y != s[k]
  {
    var r := s[..k] + s[k + 1..];
    if y in s && y != s[k] {
      var j :| 0 <= j < |s| && s[j] == y;
      assert r[if j < k then j else j - 1] == y;
    }
    if y in r {
      var i :| 0 <= i < |r| && r[i] == y;
      assert y == s[if i < k then i else i + 1];
    }
  }

  lemma WithoutMembers<T>(s: seq<T>, x: T)
    requires Distinct(s)
    ensures Distinct(Without(s, x))
    ensures forall y :: y in Without(s, x) <==> y in s && y != x
  {
    if x in s {
      var k :| 0 <= k < |s| && s[k] == x;
      WithoutAt(s, k);
      CutDistinct(s, k);
      forall y ensures y in Without(s, x) <==> y in s && y != x {
        CutMember(s, k, y);
      }
    } else {
      WithoutAbsent(s, x);
    }
  }

  lemma WithoutAbsent<T>(s: seq<T>, x: T)
    requires x !in s
    ensures Without(s, x) == s
  {
  }

  lemma WithoutHead<T>(s: seq<T>)
    requires s != []
    ensures Without(s, s[0]) == s[1..]
  {
  }

  lemma DistinctConcat<T>(s: seq<T>, r: seq<T>)
    requires Distinct(s) && Distinct(r)
    requires forall x :: x in s ==> x !in r
    ensures Distinct(s + r)
  {
    forall i, j | 0 <= i < j < |s + r| ensures (s + r)[i] != (s + r)[j] {
      assert i < |s| <= j ==> (s + r)[i] in s && (s + r)[j] in r;
    }
  }

  lemma Associate<T>(a: seq<T>, b: seq<T>, c: seq<T>)
    ensures a + (b + c) == (a + b) + c
  {
  }

  lemma TakeOneMore<T>(s: seq<T>, k: nat)
    requires k < |s|
    ensures s[..k + 1] == s[..k] + [s[k]]
  {
  }

  lemma DropOneLess<T>(s: seq<T>, k: nat)
    requires k < |s|
    ensures s[k..] == [s[k]] + s[k + 1..]
  {
  }
}
