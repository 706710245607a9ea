/**
 * Leftmost-match search, the way re.search tries start positions: the least
 * index at which a matcher succeeds.
 */
module Scan {
  import opened Wrappers

  /** The least index in [i, n] at which f answers Some. */
  function FirstSome<T>(f: nat -> Option<T>, i: nat, n: nat): (r: Option<nat>)
    ensures r.Some? ==> i <= r.value <= n && f(r.value).Some?
    decreases n + 1 - i
  {
    if i > n then None
    else if f(i).Some? then Some(i)
    else FirstSome(f, i + 1, n)
  }

  /** Nothing matches before the reported index. */
  lemma {:induction false} FirstSomeIsFirst<T>(f: nat -> Option<T>, i: nat, n: nat, j: nat)
    requires FirstSome(f, i, n).Some? && i <= j < FirstSome(f, i, n).value
    ensures f(j).None?
    decreases n + 1 - i
  {
    if j > i {
      FirstSomeIsFirst(f, i + 1, n, j);
    }
  }

  /** When the search fails, nothing in the range matches. */
  lemma {:induction false} FirstSomeNone<T>(f: nat -> Option<T>, i: nat, n: nat, j: nat)
    requires FirstSome(f, i, n).None? && i <= j <= n
    ensures f(j).None?
    decreases n + 1 - i
  {
    if j > i {
      FirstSomeNone(f, i + 1, n, j);
    }
  }

  /** An index that matches with no match before it is the one reported. */
  lemma {:induction false} FirstSomeAt<T>(f: nat -> Option<T>, i: nat, n: nat, j: nat)
    requires i <= j <= n && f(j).Some?
    requires forall k: nat :: i <= k < j ==> f(k).None?
    ensures FirstSome(f, i, n) == Some(j)
    decreases n + 1 - i
  {
    if i < j {
      FirstSomeAt(f, i + 1, n, j);
    }
  }

  /** When nothing in the range matches, the search fails. */
  lemma {:induction false} FirstSomeAllNone<T>(f: nat -> Option<T>, i: nat, n: nat)
    requires forall k: nat :: i <= k <= n ==> f(k).None?
    ensures FirstSome(f, i, n).None?
    decreases n + 1 - i
  {
    if i <= n {
      FirstSomeAllNone(f, i + 1, n);
    }
  }
}
