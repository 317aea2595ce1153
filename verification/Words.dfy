/** Go's byte strings with the byte-wise order of `<` on strings, and a few facts about
    sequences that every other module uses. */
module Words {

  newtype uint8 = x: int | 0 <= x < 256

  /** A Go string is an immutable sequence of bytes. */
  type GoString = seq<uint8>

  /** The order of Go's `<` on strings: byte by byte, a proper prefix first. */
  predicate Less(a: GoString, b: GoString) {
    b != [] && (a == [] || a[0] < b[0] || (a[0] == b[0] && Less(a[1..], b[1..])))
  }

  /** The strings agree before `k`; there the first ends, or has the smaller byte. */
  ghost predicate LessAt(a: GoString, b: GoString, k: nat) {
    k <= |a| && k < |b| && a[..k] == b[..k] && (k == |a| || a[k] < b[k])
  }

  lemma LessAtNext(a: GoString, b: GoString, k: nat)
    requires a != [] && b != [] && a[0] == b[0]
    ensures LessAt(a, b, k + 1) <==> LessAt(a[1..], b[1..], k)
  {
    if k < |a| && k < |b| {
      assert a[..k + 1] == [a[0]] + a[1..][..k] && b[..k + 1] == [b[0]] + b[1..][..k];
      assert a[..k + 1][1..] == a[1..][..k] && b[..k + 1][1..] == b[1..][..k];
    }
  }

  lemma SameStart(a: GoString, b: GoString, k: nat)
    requires a != [] && b != []
    ensures 0 < k <= |a| && k <= |b| && a[..k] == b[..k] ==> a[0] == b[0]
  {
    if 0 < k <= |a| && k <= |b| {
      assert a[..k][0] == a[0] && b[..k][0] == b[0];
    }
  }

  /** One string comes before another exactly when they first differ that way. */
  lemma {:induction false} LessMeaning(a: GoString, b: GoString)
    ensures Less(a, b) <==> exists k: nat :: LessAt(a, b, k)
  {
    if b != [] && (a == [] || a[0] < b[0]) {
      assert LessAt(a, b, 0);
    } else if b != [] && a[0] == b[0] {
      LessMeaning(a[1..], b[1..]);
      if k: nat :| LessAt(a, b, k) {
        LessAtNext(a, b, k - 1);
      }
      if k: nat :| LessAt(a[1..], b[1..], k) {
        LessAtNext(a, b, k);
      }
    } else if b != [] {
      forall k: nat
        ensures !LessAt(a, b, k)
      {
        SameStart(a, b, k);
      }
    }
  }

  lemma {:induction false} LessIrreflexive(a: GoString)
    ensures !Less(a, a)
  {
    if a != [] {
      LessIrreflexive(a[1..]);
    }
  }

  lemma {:induction false} LessTransitive(a: GoString, b: GoString, c: GoString)
    requires Less(a, b) && Less(b, c)
    ensures Less(a, c)
  {
    if a != [] && a[0] == b[0] == c[0] {
      LessTransitive(a[1..], b[1..], c[1..]);
    }
  }

  lemma {:induction false} LessTotal(a: GoString, b: GoString)
    ensures a == b || Less(a, b) || Less(b, a)
  {
    if a != [] && b != [] && a[0] == b[0] {
      LessTotal(a[1..], b[1..]);
      assert a == [a[0]] + a[1..] && b == [b[0]] + b[1..];
    }
  }

  function Last<T>(s: seq<T>): T
    requires s != []
  {
    s[|s| - 1]
  }

  lemma ThreeParts<T>(a: seq<T>, b: seq<T>, c: seq<T>)
    ensures a + (b + c) == a + b + c
  {
  }

  function Front<T>(s: seq<T>): seq<T>
    requires s != []
  {
    s[..|s| - 1]
  }

  function Repeat<T>(x: T, n: nat): (s: seq<T>)
    ensures |s| == n && forall i :: 0 <= i < n ==> s[i] == x
  {
    if n == 0 then [] else Repeat(x, n - 1) + [x]
  }

  function SetOf<T(==)>(s: seq<T>): set<T> {
    set x | x in s
  }

  /** The induction step of every fold below: a sequence is its front and its last element. */
  lemma FrontLast<T>(s: seq<T>)
    requires s != []
    ensures s == Front(s) + [Last(s)]
    ensures SetOf(s) == SetOf(Front(s)) + {Last(s)}
    ensures multiset(s) == multiset(Front(s)) + multiset{Last(s)}
  {
  }

  lemma SameMultisetSameSet<T>(s: seq<T>, t: seq<T>)
    requires multiset(s) == multiset(t)
    ensures SetOf(s) == SetOf(t) && |s| == |t|
  {
    forall x
      ensures x in s <==> x in t
    {
      assert x in s <==> x in multiset(s);
      assert x in t <==> x in multiset(t);
    }
    assert |multiset(s)| == |multiset(t)|;
  }
}
