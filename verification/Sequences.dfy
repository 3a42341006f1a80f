/** Options, and the few facts about sequences the other modules share. */
module Wrappers {
  datatype Option<+T> = None | Some(value: T)

  datatype Result<+T, +E> = Ok(value: T) | Err(error: E)
}

module Sequences {

  function Last<T>(s: seq<T>): T
    requires s != []
  {
    s[|s| - 1]
  }

  function DropLast<T>(s: seq<T>): seq<T>
    requires s != []
  {
    s[..|s| - 1]
  }

  lemma DropLastThenLast<T>(s: seq<T>)
    requires s != []
    ensures DropLast(s) + [Last(s)] == s
  {
  }

  lemma CountSnoc<T>(s: seq<T>, x: T, y: T)
    ensures multiset(s + [x])[y] == multiset(s)[y] + if x == y then 1 else 0
  {
  }

  function RemoveAt<T>(s: seq<T>, j: nat): seq<T>
    requires j < |s|
  {
    s[..j] + s[j + 1..]
  }

  /** The last position of a character, or -1. */
  function LastIndexOf(s: string, x: char): (i: int)
    ensures -1 <= i < |s|
    ensures i >= 0 ==> s[i] == x
    ensures x !in s[i + 1..]
  {
    if s == [] then -1 else if Last(s) == x then |s| - 1 else LastIndexOf(DropLast(s), x)
  }

  /** Where the part behind `x` does not hold it, its last position tells the two parts apart. */
  lemma {:induction false} LastIndexOfJoined(front: string, x: char, back: string)
    requires x !in back
    ensures LastIndexOf(front + [x] + back, x) == |front|
    decreases |back|
  {
    if back == [] {
      assert Last(front + [x] + back) == x;
    } else {
      assert Last(back) in back && x !in DropLast(back);
      LastIndexOfJoined(front, x, DropLast(back));
      assert DropLast(front + [x] + back) == front + [x] + DropLast(back);
    }
  }

  /** `a` is obtained from `b` by deleting elements, keeping the order of the rest. */
  predicate Subseq<T(==)>(a: seq<T>, b: seq<T>)
    decreases |b|
  {
    || a == []
    || (b != [] && (|| Subseq(a, DropLast(b))
                    || (Last(a) == Last(b) && Subseq(DropLast(a), DropLast(b)))))
  }

  lemma {:induction false} SubseqRefl<T>(s: seq<T>)
    ensures Subseq(s, s)
    decreases |s|
  {
    if s != [] {
      SubseqRefl(DropLast(s));
    }
  }

  /** Appending to the longer sequence keeps a subsequence. */
  lemma {:induction false} SubseqExtend<T>(a: seq<T>, b: seq<T>, c: seq<T>)
    requires Subseq(a, b)
    ensures Subseq(a, b + c)
    decreases |c|
  {
    if c == [] {
      assert b + c == b;
    } else {
      SubseqExtend(a, b, DropLast(c));
      assert DropLast(b + c) == b + DropLast(c);
    }
  }

  /** Appending the same suffix on both sides keeps a subsequence. */
  lemma {:induction false} SubseqAppend<T>(a: seq<T>, b: seq<T>, c: seq<T>)
    requires Subseq(a, b)
    ensures Subseq(a + c, b + c)
    decreases |c|
  {
    if c == [] {
      assert a + c == a && b + c == b;
    } else {
      SubseqAppend(a, b, DropLast(c));
      assert DropLast(a + c) == a + DropLast(c) && DropLast(b + c) == b + DropLast(c);
      assert Last(a + c) == Last(c) == Last(b + c);
    }
  }

  /** Prepending the same sequence on both sides keeps a subsequence. */
  lemma {:induction false} SubseqPrepend<T>(c: seq<T>, a: seq<T>, b: seq<T>)
    requires Subseq(a, b)
    ensures Subseq(c + a, c + b)
    decreases |b|
  {
    if a == [] {
      assert c + a == c;
      SubseqRefl(c);
      SubseqExtend(c, c, b);
    } else {
      assert DropLast(c + b) == c + DropLast(b) && Last(c + b) == Last(b);
      assert DropLast(c + a) == c + DropLast(a) && Last(c + a) == Last(a);
      if Subseq(a, DropLast(b)) {
        SubseqPrepend(c, a, DropLast(b));
      } else {
        SubseqPrepend(c, DropLast(a), DropLast(b));
      }
    }
  }

  lemma {:induction false} SubseqRemove<T>(s: seq<T>, j: nat)
    requires j < |s|
    ensures Subseq(RemoveAt(s, j), s)
    decreases |s|
  {
    if j == |s| - 1 {
      assert RemoveAt(s, j) == DropLast(s);
      SubseqRefl(DropLast(s));
    } else {
      SubseqRemove(DropLast(s), j);
      assert DropLast(RemoveAt(s, j)) == RemoveAt(DropLast(s), j);
    }
  }

  lemma {:induction false} SubseqTrans<T>(a: seq<T>, b: seq<T>, c: seq<T>)
    requires Subseq(a, b) && Subseq(b, c)
    ensures Subseq(a, c)
    decreases |c|, |b|
  {
    if a == [] || b == [] {
    } else if Subseq(b, DropLast(c)) {
      SubseqTrans(a, b, DropLast(c));
    } else if Subseq(a, DropLast(b)) {
      SubseqTrans(a, DropLast(b), DropLast(c));
    } else {
      SubseqTrans(DropLast(a), DropLast(b), DropLast(c));
    }
  }

  lemma {:induction false} SubseqMember<T>(a: seq<T>, b: seq<T>, x: T)
    requires Subseq(a, b) && x in a
    ensures x in b
    decreases |b|
  {
    if Subseq(a, DropLast(b)) {
      SubseqMember(a, DropLast(b), x);
    } else if x != Last(a) {
      assert x in DropLast(a);
      SubseqMember(DropLast(a), DropLast(b), x);
    }
  }
}
