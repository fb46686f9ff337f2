/** Small shared vocabulary: optional values, duplicate-free sequences and
    the counting facts about integer ranges that the game model relies on. */
module Common {

  /** A dictionary key that may be absent. */
  datatype Option<T> = None | Some(value: T) {
    /** `d.get(key, default)` */
    function GetOr(default: T): T {
      if Some? then value else default
    }
  }

  /** The result of an operation that may raise (a KeyError or TypeError
      from reading a key the stored state lacks). */
  datatype Outcome<T> = Ok(value: T) | Raised

  /** Telegram user ids, used as dictionary keys (strings once stored as JSON). */
  type UserId = string

  /** No element occurs twice. */
  predicate NoDup<T(==)>(s: seq<T>) {
    forall i, j :: 0 <= i < j < |s| ==> s[i] != s[j]
  }

  predicate Between(lo: int, n: int, hi: int) {
    lo <= n < hi
  }

  /** The integers lo..hi-1. */
  function Range(lo: int, hi: int): set<int> {
    set n | lo <= n < hi && Between(lo, n, hi)
  }

  lemma {:induction false} RangeSize(lo: int, hi: int)
    requires lo <= hi
    ensures |Range(lo, hi)| == hi - lo
    decreases hi - lo
  {
    if lo < hi {
      RangeSize(lo + 1, hi);
      assert Range(lo, hi) == {lo} + Range(lo + 1, hi);
    }
  }

  lemma SubsetSize<T>(a: set<T>, b: set<T>)
    requires a <= b
    ensures |a| <= |b|
    ensures |a| == |b| ==> a == b
  {
    assert b == a + (b - a);
    assert |b| == |a| + |b - a|;
    if |a| == |b| {
      assert |b - a| == 0;
    }
  }

  /** The elements of a duplicate-free sequence form a set of the same size. */
  lemma {:induction false} NoDupSetSize<T>(s: seq<T>)
    requires NoDup(s)
    ensures |set x | x in s| == |s|
  {
    if s != [] {
      var tail := s[1..];
      assert NoDup(tail) by {
        forall i, j | 0 <= i < j < |tail| ensures tail[i] != tail[j] {
          assert tail[i] == s[i + 1] && tail[j] == s[j + 1];
        }
      }
      NoDupSetSize(tail);
      assert s[0] !in tail by {
        forall k | 0 <= k < |tail| ensures tail[k] != s[0] {
          assert tail[k] == s[k + 1];
        }
      }
      assert (set x | x in s) == {s[0]} + (set x | x in tail) by {
        assert s == [s[0]] + tail;
      }
    }
  }

  /** A sequence has no more distinct elements than it has positions. */
  lemma {:induction false} SeqSetSize<T>(s: seq<T>)
    ensures |set x | x in s| <= |s|
  {
    if s != [] {
      var tail := s[1..];
      SeqSetSize(tail);
      assert (set x | x in s) == {s[0]} + (set x | x in tail) by {
        assert s == [s[0]] + tail;
      }
    }
  }

  /** A duplicate-free sequence drawn from lo..hi-1 has at most hi-lo elements,
      and exactly hi-lo only when it uses every value of the range. */
  lemma NoDupInRange(s: seq<int>, lo: int, hi: int)
    requires lo <= hi
    requires NoDup(s)
    requires forall i :: 0 <= i < |s| ==> lo <= s[i] < hi
    ensures |s| <= hi - lo
    ensures |s| == hi - lo <==> forall n :: lo <= n < hi ==> n in s
  {
    var elems := set x | x in s;
    NoDupSetSize(s);
    RangeSize(lo, hi);
    assert elems <= Range(lo, hi);
    SubsetSize(elems, Range(lo, hi));
    if forall n :: lo <= n < hi ==> n in s {
      forall n | n in Range(lo, hi) ensures n in elems {
        assert Between(lo, n, hi);
      }
      assert elems == Range(lo, hi);
    }
    if |s| == hi - lo {
      forall n | lo <= n < hi ensures n in s {
        assert Between(lo, n, hi);
        assert n in Range(lo, hi);
      }
    }
  }
}
