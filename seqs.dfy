/** `Array.prototype.filter` in the two shapes the code uses over and over:
    drop every occurrence of one value, keep only values of an allowed list. */
module Seqs {

  predicate NoDup<T(==,!new)>(s: seq<T>) {
    forall i, j :: 0 <= i < j < |s| ==> s[i] != s[j]
  }

  /** Concatenation is associative. */
  lemma AppendAssociative<T>(a: seq<T>, b: seq<T>, c: seq<T>)
    ensures (a + b) + c == a + (b + c)
  {
  }

  /** A prefix one longer is the shorter prefix with the next element
      appended. */
  lemma TakeOneMore<T>(s: seq<T>, i: nat)
    requires i < |s|
    ensures s[..i + 1] == s[..i] + [s[i]]
  {
  }

  /** `r` is `s` with some elements dropped and the others in their original
      order (greedy matching decides this exactly). */
  predicate IsSubsequence<T(==,!new)>(r: seq<T>, s: seq<T>)
    decreases |s|
  {
    if |r| == 0 then true
    else if |s| == 0 then false
    else if r[0] == s[0] then IsSubsequence(r[1..], s[1..])
    else IsSubsequence(r, s[1..])
  }

  lemma {:induction false} SubsequenceDropHead<T(!new)>(r: seq<T>, s: seq<T>)
    requires |r| > 0 && IsSubsequence(r, s)
    ensures IsSubsequence(r[1..], s)
    decreases |s|
  {
    if r[0] != s[0] {
      SubsequenceDropHead(r, s[1..]);
      if |r| > 1 && r[1] == s[0] {
        SubsequenceDropHead(r[1..], s[1..]);
      }
    } else if |r| > 1 && r[1] == s[0] {
      SubsequenceDropHead(r[1..], s[1..]);
    }
  }

  /** A subsequence of the tail of `s` is a subsequence of `s`. */
  lemma SubsequenceOfTail<T(!new)>(r: seq<T>, s: seq<T>)
    requires |s| > 0 && IsSubsequence(r, s[1..])
    ensures IsSubsequence(r, s)
  {
    if |r| > 0 && r[0] == s[0] {
      SubsequenceDropHead(r, s[1..]);
    }
  }

  lemma {:induction false} SubsequenceOfItself<T(!new)>(s: seq<T>)
    ensures IsSubsequence(s, s)
    decreases |s|
  {
    if |s| > 0 {
      SubsequenceOfItself(s[1..]);
    }
  }

  /** A subsequence is no longer than the sequence it is drawn from. */
  lemma {:induction false} SubsequenceLength<T(!new)>(r: seq<T>, s: seq<T>)
    requires IsSubsequence(r, s)
    ensures |r| <= |s|
    decreases |s|
  {
    if |r| > 0 {
      if r[0] == s[0] {
        SubsequenceLength(r[1..], s[1..]);
      } else {
        SubsequenceLength(r, s[1..]);
      }
    }
  }

  lemma {:induction false} SubsequenceTransitive<T(!new)>(a: seq<T>, b: seq<T>, c: seq<T>)
    requires IsSubsequence(a, b) && IsSubsequence(b, c)
    ensures IsSubsequence(a, c)
    decreases |c|
  {
    if |a| > 0 {
      if b[0] == c[0] {
        if a[0] == b[0] {
          SubsequenceTransitive(a[1..], b[1..], c[1..]);
        } else {
          SubsequenceTransitive(a, b[1..], c[1..]);
          SubsequenceOfTail(a, c);
        }
      } else {
        SubsequenceTransitive(a, b, c[1..]);
        SubsequenceOfTail(a, c);
      }
    }
  }

  lemma NoDupTail<T(!new)>(s: seq<T>)
    requires |s| > 0 && NoDup(s)
    ensures s[0] !in s[1..] && NoDup(s[1..])
  {
  }

  lemma NoDupCons<T(!new)>(a: T, rest: seq<T>)
    requires a !in rest && NoDup(rest)
    ensures NoDup([a] + rest)
  {
    var r := [a] + rest;
    forall i, j | 0 <= i < j < |r|
      ensures r[i] != r[j]
    {
      assert r[j] == rest[j - 1];
      if i > 0 {
        assert r[i] == rest[i - 1];
      }
    }
  }

  lemma NoDupSnoc<T(!new)>(s: seq<T>, a: T)
    requires NoDup(s) && a !in s
    ensures NoDup(s + [a])
  {
  }

  /** `s.filter(y => y !== x)` */
  function Without<T(==,!new)>(s: seq<T>, x: T): (r: seq<T>)
    ensures forall y :: y in r <==> y in s && y != x
    ensures IsSubsequence(r, s)
    ensures |r| <= |s|
    ensures x !in s ==> r == s
    ensures NoDup(s) ==> NoDup(r)
    decreases |s|
  {
    if |s| == 0 then []
    else if s[0] == x then
      var rest := Without(s[1..], x);
      SubsequenceOfTail(rest, s);
      rest
    else
      var rest := Without(s[1..], x);
      assert NoDup(s) ==> NoDup([s[0]] + rest) by {
        if NoDup(s) { NoDupTail(s); NoDupCons(s[0], rest); }
      }
      [s[0]] + rest
  }

  /** `s.filter(y => allowed.includes(y))` */
  function Retain<T(==,!new)>(s: seq<T>, allowed: seq<T>): (r: seq<T>)
    ensures forall y :: y in r <==> y in s && y in allowed
    ensures IsSubsequence(r, s)
    ensures NoDup(s) ==> NoDup(r)
    decreases |s|
  {
    if |s| == 0 then []
    else if s[0] in allowed then
      var rest := Retain(s[1..], allowed);
      assert NoDup(s) ==> NoDup([s[0]] + rest) by {
        if NoDup(s) { NoDupTail(s); NoDupCons(s[0], rest); }
      }
      [s[0]] + rest
    else
      var rest := Retain(s[1..], allowed);
      SubsequenceOfTail(rest, s);
      rest
  }

  lemma {:induction false} RetainIdempotent<T(!new)>(s: seq<T>, allowed: seq<T>)
    ensures Retain(Retain(s, allowed), allowed) == Retain(s, allowed)
    decreases |s|
  {
    if |s| > 0 {
      RetainIdempotent(s[1..], allowed);
      if s[0] in allowed {
        assert ([s[0]] + Retain(s[1..], allowed))[1..] == Retain(s[1..], allowed);
      }
    }
  }

  /** Dropping `x` from `s` with `x` appended is dropping it from `s`. */
  lemma {:induction false} WithoutAppendSelf<T(!new)>(s: seq<T>, x: T)
    ensures Without(s + [x], x) == Without(s, x)
    decreases |s|
  {
    if |s| == 0 {
      assert s + [x] == [x];
    } else {
      WithoutAppendSelf(s[1..], x);
      assert (s + [x])[1..] == s[1..] + [x];
    }
  }

  /** `s` without repeats, each value where it first occurs. */
  function Dedup<T(==,!new)>(s: seq<T>): (r: seq<T>)
    ensures forall y :: y in r <==> y in s
    ensures NoDup(r)
    decreases |s|
  {
    if |s| == 0 then []
    else
      var rest := Dedup(Without(s[1..], s[0]));
      NoDupCons(s[0], rest);
      [s[0]] + rest
  }

  lemma {:induction false} WithoutIdempotent<T(!new)>(s: seq<T>, x: T)
    ensures Without(Without(s, x), x) == Without(s, x)
  {
    // Without(s, x) no longer holds x, so a second pass keeps everything.
  }
}
