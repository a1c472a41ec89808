/**
 * Sequence operations the source takes from JavaScript's `Array` and `String`:
 * `filter`, and `split` on a non-empty separator, together with `Join`, its inverse.
 */
module Seqs {

  /** `s.filter(keep)`. */
  function Filter<T>(keep: T -> bool, s: seq<T>): (r: seq<T>)
    ensures |r| <= |s|
  {
    if |s| == 0 then [] else (if keep(s[0]) then [s[0]] else []) + Filter(keep, s[1..])
  }

  /** `sub` is `s` with some elements left out, the rest kept in their order. */
  predicate IsSubsequence<T(==)>(sub: seq<T>, s: seq<T>)
  {
    if |sub| == 0 then true
    else if |s| == 0 then false
    else (sub[0] == s[0] && IsSubsequence(sub[1..], s[1..])) || IsSubsequence(sub, s[1..])
  }

  /** Every element kept passes the test; every element that passes is kept. */
  lemma {:induction false} FilterMembership<T>(keep: T -> bool, s: seq<T>, x: T)
    ensures x in Filter(keep, s) <==> x in s && keep(x)
  {
    if |s| > 0 {
      FilterMembership(keep, s[1..], x);
      assert s == [s[0]] + s[1..];
    }
  }

  /** Filtering keeps the order of what it keeps. */
  lemma {:induction false} FilterIsSubsequence<T>(keep: T -> bool, s: seq<T>)
    ensures IsSubsequence(Filter(keep, s), s)
  {
    if |s| > 0 {
      FilterIsSubsequence(keep, s[1..]);
      var rest := Filter(keep, s[1..]);
      if keep(s[0]) {
        assert Filter(keep, s) == [s[0]] + rest;
        assert (([s[0]] + rest)[1..]) == rest;
      } else {
        assert Filter(keep, s) == rest;
        if |rest| > 0 {
          assert IsSubsequence(rest, s[1..]);
        }
      }
    }
  }

  /** Filtering keeps every copy of an element that passes and no copy of one that fails. */
  lemma {:induction false} FilterMultiplicity<T>(keep: T -> bool, s: seq<T>, x: T)
    ensures multiset(Filter(keep, s))[x] == if keep(x) then multiset(s)[x] else 0
  {
    if |s| > 0 {
      FilterMultiplicity(keep, s[1..], x);
      assert s == [s[0]] + s[1..];
      assert multiset(s) == multiset([s[0]]) + multiset(s[1..]);
      var head := if keep(s[0]) then [s[0]] else [];
      assert multiset(Filter(keep, s)) == multiset(head) + multiset(Filter(keep, s[1..]));
    }
  }

  /** Filtering a concatenation filters each part. */
  lemma {:induction false} FilterAppend<T>(keep: T -> bool, s: seq<T>, t: seq<T>)
    ensures Filter(keep, s + t) == Filter(keep, s) + Filter(keep, t)
  {
    if |s| == 0 {
      assert s + t == t;
    } else {
      var head := if keep(s[0]) then [s[0]] else [];
      assert (s + t)[0] == s[0];
      assert (s + t)[1..] == s[1..] + t;
      FilterAppend(keep, s[1..], t);
      calc {
        Filter(keep, s + t);
        head + Filter(keep, s[1..] + t);
        head + (Filter(keep, s[1..]) + Filter(keep, t));
        (head + Filter(keep, s[1..])) + Filter(keep, t);
        Filter(keep, s) + Filter(keep, t);
      }
    }
  }

  /** Filtering twice with the same test changes nothing the second time. */
  lemma {:induction false} FilterIdempotent<T>(keep: T -> bool, s: seq<T>)
    ensures Filter(keep, Filter(keep, s)) == Filter(keep, s)
  {
    if |s| > 0 {
      FilterIdempotent(keep, s[1..]);
      var rest := Filter(keep, s[1..]);
      if keep(s[0]) {
        var r := [s[0]] + rest;
        assert Filter(keep, s) == r;
        assert r[0] == s[0] && r[1..] == rest;
        assert Filter(keep, r) == [s[0]] + Filter(keep, rest);
      } else {
        assert Filter(keep, s) == [] + rest == rest;
      }
    }
  }

  /** Two tests that agree on every element of `s` filter it alike. */
  lemma {:induction false} FilterCongruent<T>(f: T -> bool, g: T -> bool, s: seq<T>)
    requires forall i :: 0 <= i < |s| ==> f(s[i]) == g(s[i])
    ensures Filter(f, s) == Filter(g, s)
  {
    if |s| > 0 {
      assert f(s[0]) == g(s[0]);
      FilterCongruent(f, g, s[1..]);
    }
  }

  /** Some element of `Filter(keep, s)` has property `p` iff some element of `s` has both. */
  lemma {:induction false} FilterExists<T>(keep: T -> bool, p: T -> bool, s: seq<T>)
    ensures (exists i :: 0 <= i < |Filter(keep, s)| && p(Filter(keep, s)[i]))
        <==> (exists i :: 0 <= i < |s| && keep(s[i]) && p(s[i]))
  {
    var r := Filter(keep, s);
    if exists i :: 0 <= i < |r| && p(r[i]) {
      var i :| 0 <= i < |r| && p(r[i]);
      FilterMembership(keep, s, r[i]);
      var j :| 0 <= j < |s| && s[j] == r[i];
      assert keep(s[j]) && p(s[j]);
    }
    if exists j :: 0 <= j < |s| && keep(s[j]) && p(s[j]) {
      var j :| 0 <= j < |s| && keep(s[j]) && p(s[j]);
      FilterMembership(keep, s, s[j]);
      var i :| 0 <= i < |r| && r[i] == s[j];
      assert p(r[i]);
    }
  }

  /** `s` begins with `prefix`. */
  predicate StartsWith<T(==)>(s: seq<T>, prefix: seq<T>)
  {
    |prefix| <= |s| && s[..|prefix|] == prefix
  }

  /**
   * `s.split(sep)` for a non-empty separator: the pieces between the non-overlapping
   * occurrences of `sep`, found from left to right. There is always at least one piece.
   */
  function Split<T(==)>(s: seq<T>, sep: seq<T>): (pieces: seq<seq<T>>)
    requires |sep| > 0
    ensures |pieces| > 0
    decreases |s|
  {
    if |s| < |sep| then [s]
    else if StartsWith(s, sep) then [[]] + Split(s[|sep|..], sep)
    else
      var rest := Split(s[1..], sep);
      [[s[0]] + rest[0]] + rest[1..]
  }

  /** `pieces.join(sep)`. */
  function Join<T>(pieces: seq<seq<T>>, sep: seq<T>): seq<T>
    requires |pieces| > 0
  {
    if |pieces| == 1 then pieces[0] else pieces[0] + sep + Join(pieces[1..], sep)
  }

  /** Joining the pieces of a split with the same separator gives back the original. */
  lemma {:induction false} JoinSplit<T>(s: seq<T>, sep: seq<T>)
    requires |sep| > 0
    ensures Join(Split(s, sep), sep) == s
  {
    if |s| < |sep| {
    } else if StartsWith(s, sep) {
      var tail := s[|sep|..];
      JoinSplit(tail, sep);
      var pieces := Split(s, sep);
      assert pieces[1..] == Split(tail, sep);
      assert s == sep + tail;
    } else {
      var rest := Split(s[1..], sep);
      JoinSplit(s[1..], sep);
      JoinConsHead(s[0], rest, sep);
      assert s == [s[0]] + s[1..];
    }
  }

  /** Putting an element in front of the first piece puts it in front of the join. */
  lemma JoinConsHead<T>(x: T, pieces: seq<seq<T>>, sep: seq<T>)
    requires |pieces| > 0
    ensures Join([[x] + pieces[0]] + pieces[1..], sep) == [x] + Join(pieces, sep)
  {
    var q := [[x] + pieces[0]] + pieces[1..];
    assert q[1..] == pieces[1..];
  }

  /** `sep` occurs in `s` at position `i`. */
  predicate OccursAt<T(==)>(s: seq<T>, sep: seq<T>, i: nat)
  {
    i + |sep| <= |s| && s[i..i + |sep|] == sep
  }

  /** `s.includes(sep)`. */
  predicate Occurs<T(==)>(s: seq<T>, sep: seq<T>)
  {
    exists i: nat :: i <= |s| && OccursAt(s, sep, i)
  }

  /** No piece of a split contains the separator anywhere. */
  lemma SplitPiecesAvoidSeparatorAll<T>(s: seq<T>, sep: seq<T>)
    requires |sep| > 0
    ensures forall k :: 0 <= k < |Split(s, sep)| ==> !Occurs(Split(s, sep)[k], sep)
  {
    forall k, i: nat | 0 <= k < |Split(s, sep)| && OccursAt(Split(s, sep)[k], sep, i)
      ensures false
    {
      SplitPiecesAvoidSeparator(s, sep, k, i);
    }
  }

  /** No piece of a split contains the separator. */
  lemma {:induction false} SplitPiecesAvoidSeparator<T>(s: seq<T>, sep: seq<T>, k: nat, i: nat)
    requires |sep| > 0
    requires k < |Split(s, sep)|
    requires i + |sep| <= |Split(s, sep)[k]|
    ensures Split(s, sep)[k][i..i + |sep|] != sep
    decreases |s|
  {
    if |s| < |sep| {
    } else if StartsWith(s, sep) {
      SplitPiecesAvoidSeparator(s[|sep|..], sep, k - 1, i);
    } else {
      var rest := Split(s[1..], sep);
      if k > 0 {
        SplitPiecesAvoidSeparator(s[1..], sep, k, i);
      } else if i > 0 {
        var p := [s[0]] + rest[0];
        assert p[i..i + |sep|] == rest[0][i - 1..i - 1 + |sep|];
        SplitPiecesAvoidSeparator(s[1..], sep, 0, i - 1);
      } else {
        FirstPieceIsPrefix(s[1..], sep);
        var p := [s[0]] + rest[0];
        assert p == ([s[0]] + s[1..])[..|p|];
        assert s == [s[0]] + s[1..];
        assert p[..|sep|] == s[..|sep|];
      }
    }
  }

  /** A sequence without the separator splits into itself alone. */
  lemma {:induction false} SplitWithoutSeparator<T>(s: seq<T>, sep: seq<T>)
    requires |sep| > 0
    requires !Occurs(s, sep)
    ensures Split(s, sep) == [s]
    decreases |s|
  {
    if |s| >= |sep| {
      assert !OccursAt(s, sep, 0);
      forall i: nat | i <= |s[1..]| && OccursAt(s[1..], sep, i)
        ensures false
      {
        assert s[1..][i..i + |sep|] == s[i + 1..i + 1 + |sep|];
        assert OccursAt(s, sep, i + 1);
      }
      SplitWithoutSeparator(s[1..], sep);
      assert s == [s[0]] + s[1..];
    }
  }

  /** When the separator first occurs right after `a`, `a` is the first piece. */
  lemma {:induction false} SplitFirstPiece<T>(a: seq<T>, sep: seq<T>, b: seq<T>)
    requires |sep| > 0
    requires forall i :: 0 <= i < |a| ==> !OccursAt(a + sep + b, sep, i)
    ensures Split(a + sep + b, sep) == [a] + Split(b, sep)
    decreases |a|
  {
    var s := a + sep + b;
    if |a| == 0 {
      assert s == sep + b;
      assert s[|sep|..] == b;
    } else {
      assert !OccursAt(s, sep, 0);
      assert s[1..] == a[1..] + sep + b;
      forall i | 0 <= i < |a[1..]|
        ensures !OccursAt(a[1..] + sep + b, sep, i)
      {
        assert s[1..][i..i + |sep|] == s[i + 1..i + 1 + |sep|];
        assert !OccursAt(s, sep, i + 1);
      }
      SplitFirstPiece(a[1..], sep, b);
      assert a == [a[0]] + a[1..];
    }
  }

  /** The first piece of a split is a prefix of the split sequence. */
  lemma {:induction false} FirstPieceIsPrefix<T>(s: seq<T>, sep: seq<T>)
    requires |sep| > 0
    ensures |Split(s, sep)[0]| <= |s| && s[..|Split(s, sep)[0]|] == Split(s, sep)[0]
    decreases |s|
  {
    if |s| < |sep| {
    } else if StartsWith(s, sep) {
    } else {
      FirstPieceIsPrefix(s[1..], sep);
      var rest := Split(s[1..], sep);
      assert s == [s[0]] + s[1..];
      assert s[..1 + |rest[0]|] == [s[0]] + s[1..][..|rest[0]|];
    }
  }
}
