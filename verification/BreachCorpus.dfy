/** The breached-password corpus: the generator that sorts, dedups and
    concatenates SHA-1 digests, and the lookup that binary-searches the blob.
    SHA-1 is a parameter. */
module BreachCorpus {
  import opened Wrappers
  import opened Lexicographic
  import opened Sorting

  const DIGEST_LEN: nat := 20

  type Digest = d: seq<Byte> | |d| == DIGEST_LEN witness seq(DIGEST_LEN, i => 0)

  predicate DigestLess(a: Digest, b: Digest) {
    Less(a, b)
  }

  lemma DigestOrder()
    ensures StrictWeakOrder(DigestLess)
    ensures forall a: Digest, b: Digest | a != b :: DigestLess(a, b) || DigestLess(b, a)
  {
    forall a: Digest, b: Digest
      ensures DigestLess(a, b) ==> !DigestLess(b, a)
      ensures a != b ==> DigestLess(a, b) || DigestLess(b, a)
    {
      Total(a, b);
      Irreflexive(a);
      if Less(a, b) && Less(b, a) {
        Transitive(a, b, a);
      }
    }
    forall a: Digest, b: Digest, c: Digest | DigestLess(a, c)
      ensures DigestLess(a, b) || DigestLess(b, c)
    {
      Total(a, b);
      if Less(b, a) {
        Transitive(b, a, c);
      }
    }
  }

  // ----- the generator -----

  /** A run of equal digests is kept once. */
  function Dedup(s: seq<Digest>): (r: seq<Digest>)
    ensures s != [] ==> r != [] && r[|r| - 1] == s[|s| - 1]
    ensures |r| <= |s|
  {
    if s == [] then []
    else
      var init := s[..|s| - 1];
      var last := s[|s| - 1];
      if init != [] && init[|init| - 1] == last then Dedup(init) else Dedup(init) + [last]
  }

  function Concat(ds: seq<Digest>): (blob: seq<Byte>)
    ensures |blob| == |ds| * DIGEST_LEN
  {
    if ds == [] then [] else Concat(ds[..|ds| - 1]) + ds[|ds| - 1]
  }

  function Corpus(digests: seq<Digest>): (blob: seq<Byte>) {
    Concat(Dedup(Sort(DigestLess, digests)))
  }

  method SortDigests(a: array<Digest>)
    modifies a
    ensures a[..] == Sort(DigestLess, old(a[..]))
  {
    var sorted := Sort(DigestLess, a[..]);
    assert |sorted| == |multiset(sorted)| == |multiset(a[..])| == a.Length;
    forall i | 0 <= i < a.Length {
      a[i] := sorted[i];
    }
  }

  lemma DedupNext(s: seq<Digest>, i: nat)
    requires i < |s|
    ensures Dedup(s[..i + 1])
            == if i > 0 && s[i - 1] == s[i] then Dedup(s[..i]) else Dedup(s[..i]) + [s[i]]
  {
    assert s[..i + 1][..i] == s[..i];
  }

  /** The survivors are written over the front of the slice being read:
      digests[:0] shares the array of digests. */
  method DedupInPlace(a: array<Digest>) returns (kept: nat)
    modifies a
    ensures kept <= a.Length && a[..kept] == Dedup(old(a[..]))
  {
    kept := 0;
    var prev: Digest := seq(DIGEST_LEN, i => 0);
    var havePrev := false;
    ghost var was := a[..];
    for i := 0 to a.Length
      invariant kept <= i
      invariant a[..kept] == Dedup(was[..i])
      invariant a[i..] == was[i..]
      invariant havePrev <==> i > 0
      invariant havePrev ==> prev == was[i - 1]
    {
      hide Dedup;
      var d := a[i];
      assert d == was[i..][0];
      DedupNext(was, i);
      if !(havePrev && d == prev) {
        a[kept] := d;
        assert a[..kept + 1] == a[..kept] + [d];
        kept := kept + 1;
        prev := d;
        havePrev := true;
      }
      assert a[i + 1..] == was[i..][1..] == was[i + 1..];
    }
    assert was[..a.Length] == was;
  }

  method ConcatDigests(a: array<Digest>, kept: nat) returns (buf: seq<Byte>)
    requires kept <= a.Length
    ensures buf == Concat(a[..kept])
  {
    buf := [];
    for i := 0 to kept
      invariant buf == Concat(a[..i])
    {
      assert a[..i + 1][..i] == a[..i];
      buf := buf + a[i];
    }
  }

  datatype GenError = NoDigests | BadHex | WrongLength

  method Generate(digests: array<Digest>) returns (r: Result<seq<Byte>, GenError>)
    modifies digests
    ensures r == if digests.Length == 0 then Err(NoDigests) else Ok(Corpus(old(digests[..])))
  {
    if digests.Length == 0 {
      return Err(NoDigests);
    }
    SortDigests(digests);
    var kept := DedupInPlace(digests);
    var buf := ConcatDigests(digests, kept);
    return Ok(buf);
  }

  // ----- the lookup -----

  function Record(corpus: seq<Byte>, i: nat): (d: Digest)
    requires i < |corpus| / DIGEST_LEN
  {
    corpus[i * DIGEST_LEN..i * DIGEST_LEN + DIGEST_LEN]
  }

  ghost predicate Contains(corpus: seq<Byte>, want: Digest) {
    exists i: nat :: i < |corpus| / DIGEST_LEN && Record(corpus, i) == want
  }

  /** The records stand in strictly increasing order. */
  ghost predicate Increasing(corpus: seq<Byte>) {
    forall i: nat, j: nat | i < j < |corpus| / DIGEST_LEN :: DigestLess(Record(corpus, i), Record(corpus, j))
  }

  /** sort.Search for the first record not below `want`, then a comparison. On
      any blob at all a hit is a record; on an increasing blob a miss is none. */
  method IsCompromised(sha1: string -> Digest, corpus: seq<Byte>, plaintext: string) returns (hit: bool)
    ensures hit ==> Contains(corpus, sha1(plaintext))
    ensures Increasing(corpus) ==> (hit <==> Contains(corpus, sha1(plaintext)))
  {
    var want := sha1(plaintext);
    var n := |corpus| / DIGEST_LEN;
    var lo: nat, hi: nat := 0, n;
    DigestOrder();
    while lo < hi
      invariant lo <= hi <= n
      invariant Increasing(corpus) ==> forall k: nat | k < lo :: DigestLess(Record(corpus, k), want)
      invariant Increasing(corpus) ==> forall k: nat | hi <= k < n :: !DigestLess(Record(corpus, k), want)
    {
      var mid: nat := (lo + hi) / 2;
      if DigestLess(Record(corpus, mid), want) {
        lo := mid + 1;
      } else {
        hi := mid;
      }
    }
    if lo >= n {
      return false;
    }
    return Record(corpus, lo) == want;
  }

  // ----- what the corpus answers -----

  lemma {:induction false} ConcatRecord(ds: seq<Digest>, i: nat)
    requires i < |ds|
    ensures |Concat(ds)| / DIGEST_LEN == |ds|
    ensures Record(Concat(ds), i) == ds[i]
  {
    var init := ds[..|ds| - 1];
    if i < |init| {
      ConcatRecord(init, i);
      assert Concat(ds)[..|Concat(init)|] == Concat(init);
    }
  }

  lemma {:induction false} DedupKeepsMembers(s: seq<Digest>, x: Digest)
    ensures x in Dedup(s) <==> x in s
  {
    if s != [] {
      DedupKeepsMembers(s[..|s| - 1], x);
      assert s == s[..|s| - 1] + [s[|s| - 1]];
    }
  }

  lemma {:induction false} DedupIncreases(s: seq<Digest>)
    requires Sorted(DigestLess, s)
    ensures StrictlySorted(DigestLess, Dedup(s))
  {
    if s != [] {
      var init := s[..|s| - 1];
      DedupIncreases(init);
      DigestOrder();
      if !(init != [] && init[|init| - 1] == s[|s| - 1]) {
        var d := Dedup(init);
        forall i | 0 <= i < |d|
          ensures DigestLess(d[i], s[|s| - 1])
        {
          assert i < |d| - 1 ==> DigestLess(d[i], d[|d| - 1]);
          assert !DigestLess(s[|s| - 1], init[|init| - 1]);
        }
      }
    }
  }

  lemma SortedMembers(digests: seq<Digest>, d: Digest)
    ensures d in Sort(DigestLess, digests) <==> d in digests
  {
    assert d in Sort(DigestLess, digests) <==> d in multiset(Sort(DigestLess, digests));
    assert d in digests <==> d in multiset(digests);
  }

  lemma ConcatContains(ds: seq<Digest>, want: Digest)
    ensures |Concat(ds)| / DIGEST_LEN == |ds|
    ensures Contains(Concat(ds), want) <==> want in ds
  {
    forall i: nat | i < |ds|
      ensures Record(Concat(ds), i) == ds[i]
    {
      ConcatRecord(ds, i);
    }
    if want in ds {
      var i :| 0 <= i < |ds| && ds[i] == want;
      assert Record(Concat(ds), i) == want;
    }
  }

  lemma ConcatIncreases(ds: seq<Digest>)
    requires StrictlySorted(DigestLess, ds)
    ensures Increasing(Concat(ds))
  {
    forall i: nat, j: nat | i < j < |Concat(ds)| / DIGEST_LEN
      ensures DigestLess(Record(Concat(ds), i), Record(Concat(ds), j))
    {
      ConcatRecord(ds, i);
      ConcatRecord(ds, j);
    }
  }

  /** For any digests: the corpus built from them is a strictly increasing run of
      20-byte records, and what it contains is exactly what went in. */
  lemma CorpusIsMembership(digests: seq<Digest>)
    ensures |Corpus(digests)| % 20 == 0
    ensures Increasing(Corpus(digests))
    ensures forall want :: Contains(Corpus(digests), want) <==> want in digests
  {
    hide StrictWeakOrder, Sorted, StrictlySorted, Increasing, Contains, Dedup, Concat;
    var unique := Dedup(Sort(DigestLess, digests));
    assert Corpus(digests) == Concat(unique);
    hide Corpus;
    DigestOrder();
    SortSorts(DigestLess, digests);
    DedupIncreases(Sort(DigestLess, digests));
    ConcatIncreases(unique);
    WholeRecords(unique);
    forall want
      ensures Contains(Concat(unique), want) <==> want in digests
    {
      SortedMembers(digests, want);
      DedupKeepsMembers(Sort(DigestLess, digests), want);
      ConcatContains(unique, want);
    }
  }

  /** In plain terms: of two records the earlier one is the lower at the first byte where they
      differ. */
  lemma CorpusAscends(digests: seq<Digest>, i: nat, j: nat)
    requires i < j && (j + 1) * 20 <= |Corpus(digests)|
    ensures
      var blob := Corpus(digests);
      var a, b := blob[20 * i..20 * i + 20], blob[20 * j..20 * j + 20];
      exists k: nat :: k < 20 && a[..k] == b[..k] && a[k] < b[k]
  {
    var blob := Corpus(digests);
    CorpusIsMembership(digests);
    var a, b := Record(blob, i), Record(blob, j);
    assert a == blob[20 * i..20 * i + 20] && b == blob[20 * j..20 * j + 20];
    assert DigestLess(a, b);
    FirstDifference(a, b);
    var k: nat :| LowerAt(a, b, k);
  }

  lemma WholeRecords(ds: seq<Digest>)
    ensures |Concat(ds)| % DIGEST_LEN == 0
  {
    hide Concat;
  }

  /** How sort.Slice sorts does not matter: whatever sorted arrangement of the digests
      it leaves, the corpus is this one. */
  lemma AnySortWillDo(digests: seq<Digest>, sorted: seq<Digest>)
    requires Sorted(DigestLess, sorted) && multiset(sorted) == multiset(digests)
    ensures Concat(Dedup(sorted)) == Corpus(digests)
  {
    DigestOrder();
    SortSorts(DigestLess, digests);
    assert Ranked(DigestLess, sorted);
    hide StrictWeakOrder, Sorted, Ranked, DigestLess, Dedup, Concat;
    SortedUnique(DigestLess, sorted, Sort(DigestLess, digests));
  }

  /** The corpus does not depend on the order the digests came in, nor on how
      often each one came. */
  lemma CorpusOfSet(a: seq<Digest>, b: seq<Digest>)
    requires forall d :: d in a <==> d in b
    ensures Corpus(a) == Corpus(b)
  {
    hide StrictWeakOrder, Sorted, StrictlySorted, Dedup, Concat;
    DigestOrder();
    SortSorts(DigestLess, a);
    SortSorts(DigestLess, b);
    DedupIncreases(Sort(DigestLess, a));
    DedupIncreases(Sort(DigestLess, b));
    forall d
      ensures d in Dedup(Sort(DigestLess, a)) <==> d in Dedup(Sort(DigestLess, b))
    {
      SortedMembers(a, d);
      SortedMembers(b, d);
      DedupKeepsMembers(Sort(DigestLess, a), d);
      DedupKeepsMembers(Sort(DigestLess, b), d);
    }
    StrictlySortedUnique(DigestLess, Dedup(Sort(DigestLess, a)), Dedup(Sort(DigestLess, b)));
  }

  /** Generator and lookup together: over the corpus of any digests, a password
      is reported exactly when its digest was among them. */
  method Screen(sha1: string -> Digest, digests: array<Digest>, plaintext: string) returns (hit: bool)
    requires digests.Length > 0
    modifies digests
    ensures hit <==> sha1(plaintext) in old(digests[..])
  {
    var corpus := Generate(digests);
    CorpusIsMembership(old(digests[..]));
    hit := IsCompromised(sha1, corpus.value, plaintext);
  }
}
