/** Orderings used by the read queries: `orderBy: { createdAt: "desc" }` and
    `orderBy: { name: "asc" }` are both "list the rows of a table as a
    sequence sorted by a total preorder". */
module Ordering {

  ghost predicate TotalPreorder<T(!new)>(le: (T, T) -> bool) {
    && (forall a, b :: le(a, b) || le(b, a))
    && (forall a, b, c :: le(a, b) && le(b, c) ==> le(a, c))
  }

  ghost predicate SortedBy<T>(s: seq<T>, le: (T, T) -> bool) {
    forall i, j :: 0 <= i < j < |s| ==> le(s[i], s[j])
  }

  /** `r` lists every element of `s` exactly once. */
  ghost predicate Enumerates<T(!new)>(r: seq<T>, s: set<T>) {
    && |r| == |s|
    && (forall x :: x in r <==> x in s)
    && (forall i, j :: 0 <= i < j < |r| ==> r[i] != r[j])
  }

  /** A finite non-empty set has a least element under a total preorder. */
  lemma {:induction false} LeastExists<T(!new)>(s: set<T>, le: (T, T) -> bool)
    requires TotalPreorder(le) && s != {}
    ensures exists m :: m in s && forall y :: y in s ==> le(m, y)
    decreases s
  {
    var x :| x in s;
    if s == {x} {
      assert le(x, x);
      assert forall y :: y in s ==> y == x;
    } else {
      LeastExists(s - {x}, le);
      var m :| m in s - {x} && forall y :: y in s - {x} ==> le(m, y);
      if le(x, m) {
        assert forall y :: y in s ==> le(x, y) by {
          forall y | y in s ensures le(x, y) {
            if y != x { assert le(m, y); } else { assert le(x, x); }
          }
        }
      } else {
        assert le(m, x);
        assert forall y :: y in s ==> le(m, y);
      }
    }
  }

  /** The elements of `s` in the order `le`, least first. */
  ghost function SortBy<T(!new)>(s: set<T>, le: (T, T) -> bool): (r: seq<T>)
    requires TotalPreorder(le)
    ensures SortedBy(r, le)
    ensures Enumerates(r, s)
    decreases s
  {
    if s == {} then []
    else
      LeastExists(s, le);
      var m :| m in s && forall y :: y in s ==> le(m, y);
      var rest := SortBy(s - {m}, le);
      assert forall i :: 0 <= i < |rest| ==> rest[i] in s - {m};
      [m] + rest
  }

  /** Lexicographic order on strings, by character code. */
  predicate LexLe(a: string, b: string)
    decreases |a|
  {
    a == [] || (b != [] && (a[0] < b[0] || (a[0] == b[0] && LexLe(a[1..], b[1..]))))
  }

  lemma {:induction false} LexLeTotal(a: string, b: string)
    ensures LexLe(a, b) || LexLe(b, a)
    decreases |a|
  {
    if a != [] && b != [] && a[0] == b[0] {
      LexLeTotal(a[1..], b[1..]);
    }
  }

  lemma {:induction false} LexLeTransitive(a: string, b: string, c: string)
    requires LexLe(a, b) && LexLe(b, c)
    ensures LexLe(a, c)
    decreases |a|
  {
    if a != [] && a[0] == b[0] && b[0] == c[0] {
      LexLeTransitive(a[1..], b[1..], c[1..]);
    }
  }

  lemma {:induction false} LexLeAntisymmetric(a: string, b: string)
    requires LexLe(a, b) && LexLe(b, a)
    ensures a == b
    decreases |a|
  {
    if a != [] {
      LexLeAntisymmetric(a[1..], b[1..]);
      assert a == [a[0]] + a[1..] && b == [b[0]] + b[1..];
    }
  }
}
