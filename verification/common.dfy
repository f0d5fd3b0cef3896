/** Shared vocabulary of the dashboard model: optional values, results that
    carry an error, and order-preserving selection of sequence elements
    (the model of a pandas boolean-mask selection `df[mask]`). */
module Common {

  /** A value that may be absent (a pandas NaN / Python None). */
  datatype Option<+T> = None | Some(value: T)

  /** Either a value or the error the source would raise. */
  datatype Result<+T, +E> = Ok(value: T) | Err(error: E)

  /** The elements of `s` that satisfy `p`, in their original order. */
  function Filter<T(!new)>(s: seq<T>, p: T -> bool): (r: seq<T>)
    ensures |r| <= |s|
    ensures forall x :: x in r <==> x in s && p(x)
    ensures multiset(r) <= multiset(s)
    decreases |s|
  {
    if |s| == 0 then []
    else
      assert s == [s[0]] + s[1..];
      if p(s[0]) then [s[0]] + Filter(s[1..], p) else Filter(s[1..], p)
  }

  /** Two disjoint masks whose disjunction is `p` split the rows `p` selects:
      every such row lands in exactly one of the two selections. */
  lemma {:induction false} FilterSplit<T(!new)>(s: seq<T>, p: T -> bool, a: T -> bool, b: T -> bool)
    requires forall x :: p(x) <==> a(x) || b(x)
    requires forall x :: !(a(x) && b(x))
    ensures multiset(Filter(s, a)) + multiset(Filter(s, b)) == multiset(Filter(s, p))
    decreases |s|
  {
    if |s| > 0 {
      assert s == [s[0]] + s[1..];
      FilterSplit(s[1..], p, a, b);
    }
  }

  /** `u` and `s` are the rows of `rows` that `keep` selects, split by
      `chosen`: each kept row lands in exactly one of them. */
  ghost predicate IsSplit<T(!new)>(u: seq<T>, s: seq<T>, rows: seq<T>, keep: T -> bool, chosen: T -> bool) {
    && (forall x :: x in u <==> x in rows && keep(x) && !chosen(x))
    && (forall x :: x in s <==> x in rows && keep(x) && chosen(x))
    && multiset(u) + multiset(s) == multiset(Filter(rows, keep))
  }

  /** `(df[keep & ~chosen], df[keep & chosen])`. */
  function Split<T(!new)>(rows: seq<T>, keep: T -> bool, chosen: T -> bool): (r: (seq<T>, seq<T>))
    ensures IsSplit(r.0, r.1, rows, keep, chosen)
  {
    var u := Filter(rows, x => keep(x) && !chosen(x));
    var s := Filter(rows, x => keep(x) && chosen(x));
    FilterSplit(rows, keep, x => keep(x) && !chosen(x), x => keep(x) && chosen(x));
    (u, s)
  }

  /** A mask that keeps everything keeps the frame as it is. */
  lemma {:induction false} FilterAll<T(!new)>(s: seq<T>)
    ensures Filter(s, x => true) == s
    decreases |s|
  {
    if |s| > 0 {
      FilterAll(s[1..]);
      assert s == [s[0]] + s[1..];
    }
  }

  /** No element occurs twice. */
  predicate NoDuplicates<T(==)>(s: seq<T>) {
    forall i, j :: 0 <= i < j < |s| ==> s[i] != s[j]
  }

  /** Position of the first occurrence of `x` in `s` (Python's `list.index`). */
  function IndexOf<T(==)>(s: seq<T>, x: T): (i: nat)
    requires x in s
    ensures i < |s| && s[i] == x
    ensures forall j :: 0 <= j < i ==> s[j] != x
  {
    if s[0] == x then 0 else 1 + IndexOf(s[1..], x)
  }

  function IntMax(a: int, b: int): int { if a < b then b else a }

  function IntMin(a: int, b: int): int { if b < a then b else a }
}
