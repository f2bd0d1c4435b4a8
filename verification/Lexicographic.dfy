/** Byte-wise lexicographic order: what bytes.Compare and Go's `<` on strings compute. */
module Lexicographic {
  /** bytes.Compare(a, b) < 0 */
  predicate Less(a: seq<int>, b: seq<int>) {
    if |b| == 0 then false
    else if |a| == 0 then true
    else a[0] < b[0] || (a[0] == b[0] && Less(a[1..], b[1..]))
  }

  /** The two agree on their first `k` elements, and then `a` ends or goes lower. */
  ghost predicate LowerAt(a: seq<int>, b: seq<int>, k: nat) {
    && k <= |a| && k <= |b| && a[..k] == b[..k]
    && (if k == |a| then |a| < |b| else k < |b| && a[k] < b[k])
  }

  lemma AgreeAtFirst(a: seq<int>, b: seq<int>, k: nat)
    requires k <= |a| && k <= |b| && a[..k] == b[..k]
    ensures k > 0 ==> a[0] == b[0]
  {
    if k > 0 {
      assert a[..k][0] == b[..k][0];
    }
  }

  /** The first difference decides. */
  lemma {:induction false} FirstDifference(a: seq<int>, b: seq<int>)
    ensures Less(a, b) <==> exists k: nat :: LowerAt(a, b, k)
  {
    if |a| == 0 || |b| == 0 || a[0] != b[0] {
      forall k: nat | LowerAt(a, b, k)
        ensures k == 0
      {
        AgreeAtFirst(a, b, k);
      }
      assert Less(a, b) ==> LowerAt(a, b, 0);
    } else {
      FirstDifference(a[1..], b[1..]);
      forall k: nat | LowerAt(a[1..], b[1..], k)
        ensures LowerAt(a, b, k + 1)
      {
        assert a[..k + 1] == [a[0]] + a[1..][..k] && b[..k + 1] == [b[0]] + b[1..][..k];
      }
      forall k: nat | LowerAt(a, b, k)
        ensures k > 0 && LowerAt(a[1..], b[1..], k - 1)
      {
        assert a[1..][..k - 1] == a[..k][1..] && b[1..][..k - 1] == b[..k][1..];
      }
    }
  }

  lemma {:induction false} Irreflexive(a: seq<int>)
    ensures !Less(a, a)
  {
    if |a| > 0 {
      Irreflexive(a[1..]);
    }
  }

  lemma {:induction false} Transitive(a: seq<int>, b: seq<int>, c: seq<int>)
    requires Less(a, b) && Less(b, c)
    ensures Less(a, c)
  {
    if |a| > 0 && a[0] == b[0] == c[0] {
      Transitive(a[1..], b[1..], c[1..]);
    }
  }

  lemma {:induction false} Total(a: seq<int>, b: seq<int>)
    ensures Less(a, b) || Less(b, a) || a == b
  {
    if |a| > 0 && |b| > 0 && a[0] == b[0] {
      Total(a[1..], b[1..]);
      assert a == [a[0]] + a[1..] && b == [b[0]] + b[1..];
    }
  }

  function Codes(s: string): (codes: seq<int>) {
    seq(|s|, i requires 0 <= i < |s| => s[i] as int)
  }

  /** a < b on Go strings */
  predicate StringLess(a: string, b: string) {
    Less(Codes(a), Codes(b))
  }

  /** Of two strings the lower is a proper prefix of the other, or has the lower
      character where they first differ. */
  lemma FirstCharacter(a: string, b: string)
    ensures StringLess(a, b) <==>
            exists k: nat ::
              && k <= |a| && k <= |b| && a[..k] == b[..k]
              && (if k == |a| then |a| < |b| else k < |b| && a[k] < b[k])
  {
    FirstDifference(Codes(a), Codes(b));
    forall k: nat | k <= |a| && k <= |b|
      ensures a[..k] == b[..k] <==> Codes(a)[..k] == Codes(b)[..k]
    {
      assert Codes(a)[..k] == Codes(a[..k]) && Codes(b)[..k] == Codes(b[..k]);
      if Codes(a)[..k] == Codes(b)[..k] {
        CodesInjective(a[..k], b[..k]);
      }
    }
    if StringLess(a, b) {
      var k: nat :| LowerAt(Codes(a), Codes(b), k);
      assert a[..k] == b[..k];
    }
    if k: nat :| && k <= |a| && k <= |b| && a[..k] == b[..k]
                 && (if k == |a| then |a| < |b| else k < |b| && a[k] < b[k]) {
      assert LowerAt(Codes(a), Codes(b), k);
    }
  }

  lemma CodesInjective(a: string, b: string)
    requires Codes(a) == Codes(b)
    ensures a == b
  {
    assert |a| == |Codes(a)| == |b|;
    forall i | 0 <= i < |a|
      ensures a[i] == b[i]
    {
      assert Codes(a)[i] == Codes(b)[i];
    }
  }

  lemma StringOrder()
    ensures forall a :: !StringLess(a, a)
    ensures forall a, b :: StringLess(a, b) || StringLess(b, a) || a == b
    ensures forall a, b, c :: StringLess(a, b) && StringLess(b, c) ==> StringLess(a, c)
  {
    forall a
      ensures !StringLess(a, a)
    {
      Irreflexive(Codes(a));
    }
    forall a, b
      ensures StringLess(a, b) || StringLess(b, a) || a == b
    {
      Total(Codes(a), Codes(b));
      if Codes(a) == Codes(b) {
        CodesInjective(a, b);
      }
    }
    forall a, b, c | StringLess(a, b) && StringLess(b, c)
      ensures StringLess(a, c)
    {
      Transitive(Codes(a), Codes(b), Codes(c));
    }
  }
}
