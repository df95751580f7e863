/** The order `generateQuorumSet` sorts validators by: quality descending,
    then home domain ascending (`std::string::operator<`). */
module ValidatorOrder {
  import opened Qualities
  import opened Validators

  /** Lexicographic order on strings, comparing characters by code point. */
  predicate LexLess(a: string, b: string)
    decreases |a|
  {
    if |b| == 0 then false
    else if |a| == 0 then true
    else if a[0] != b[0] then a[0] < b[0]
    else LexLess(a[1..], b[1..])
  }

  /** The string order is a strict total order: irreflexive, asymmetric and
      total on distinct strings. */
  lemma {:induction false} LexLessStrictTotal(a: string, b: string)
    ensures LexLess(a, b) ==> !LexLess(b, a)
    ensures a == b ==> !LexLess(a, b)
    ensures a != b ==> LexLess(a, b) || LexLess(b, a)
    decreases |a|
  {
    if |a| > 0 && |b| > 0 && a[0] == b[0] {
      LexLessStrictTotal(a[1..], b[1..]);
      if a != b {
        assert a == [a[0]] + a[1..] && b == [b[0]] + b[1..];
      }
    }
  }

  /** The comparator passed to `std::sort`: l goes before r. */
  predicate Before(l: ValidatorEntry, r: ValidatorEntry) {
    || Rank(l.quality) > Rank(r.quality)
    || (Rank(l.quality) == Rank(r.quality) && LexLess(l.homeDomain, r.homeDomain))
  }

  lemma BeforeAsymmetric(l: ValidatorEntry, r: ValidatorEntry)
    ensures Before(l, r) ==> !Before(r, l)
    ensures !Before(l, r) && !Before(r, l) <==> l.quality == r.quality && l.homeDomain == r.homeDomain
  {
    LexLessStrictTotal(l.homeDomain, r.homeDomain);
  }

  /** No entry should have gone before its predecessor. */
  predicate Sorted(s: seq<ValidatorEntry>) {
    forall k :: 0 < k < |s| ==> !Before(s[k], s[k - 1])
  }

  /** In a sorted list quality never increases, and within one quality the
      home domains never decrease. */
  lemma SortedMeans(s: seq<ValidatorEntry>)
    requires Sorted(s)
    ensures forall k :: 0 < k < |s| ==> Rank(s[k].quality) <= Rank(s[k - 1].quality)
    ensures forall k :: 0 < k < |s| && s[k].quality == s[k - 1].quality ==>
              s[k].homeDomain == s[k - 1].homeDomain || LexLess(s[k - 1].homeDomain, s[k].homeDomain)
  {
    forall k | 0 < k < |s|
      ensures s[k].quality == s[k - 1].quality ==>
                s[k].homeDomain == s[k - 1].homeDomain || LexLess(s[k - 1].homeDomain, s[k].homeDomain)
    {
      LexLessStrictTotal(s[k].homeDomain, s[k - 1].homeDomain);
    }
  }

  /** `std::sort` of the copy `todo`: an insertion sort that leaves the array
      sorted and a permutation of what it held. */
  method SortValidators(a: array<ValidatorEntry>)
    modifies a
    ensures Sorted(a[..]) && multiset(a[..]) == multiset(old(a[..]))
  {
    var i := 0;
    while i < a.Length
      invariant 0 <= i <= a.Length
      invariant Sorted(a[..i])
      invariant multiset(a[..]) == multiset(old(a[..]))
    {
      InsertInto(a, i);
      i := i + 1;
    }
    assert a[..a.Length] == a[..];
  }

  /** Moves a[i] down into the sorted prefix a[..i] by adjacent swaps. */
  method InsertInto(a: array<ValidatorEntry>, i: nat)
    requires i < a.Length && Sorted(a[..i])
    modifies a
    ensures Sorted(a[..i + 1])
    ensures multiset(a[..i + 1]) == multiset(old(a[..i + 1]))
    ensures a[i + 1..] == old(a[i + 1..])
    ensures multiset(a[..]) == multiset(old(a[..]))
  {
    var j := i;
    while j > 0 && Before(a[j], a[j - 1])
      invariant 0 <= j <= i
      invariant Sorted(a[..j]) && Sorted(a[j..i + 1])
      invariant 0 < j < i ==> !Before(a[j + 1], a[j - 1])
      invariant multiset(a[..i + 1]) == multiset(old(a[..i + 1]))
      invariant a[i + 1..] == old(a[i + 1..])
    {
      ghost var s := a[..];
      SwapDown(s, j, i);
      SwapInPrefix(s, j, i);
      a[j - 1], a[j] := a[j], a[j - 1];
      assert a[..] == s[j - 1 := s[j]][j := s[j - 1]];
      j := j - 1;
    }
    JoinSorted(a[..], j, i);
    PrefixAndRest(a[..], old(a[..]), i + 1);
  }

  /** One swap of the insertion step keeps both sorted segments sorted. */
  lemma SwapDown(s: seq<ValidatorEntry>, j: nat, i: nat)
    requires 0 < j <= i < |s|
    requires Sorted(s[..j]) && Sorted(s[j..i + 1])
    requires j < i ==> !Before(s[j + 1], s[j - 1])
    requires Before(s[j], s[j - 1])
    ensures var t := s[j - 1 := s[j]][j := s[j - 1]];
            && Sorted(t[..j - 1]) && Sorted(t[j - 1..i + 1])
            && (0 < j - 1 < i ==> !Before(t[j], t[j - 2]))
  {
    var t := s[j - 1 := s[j]][j := s[j - 1]];
    BeforeAsymmetric(s[j], s[j - 1]);
    assert t[..j - 1] == s[..j - 1];
    forall k | j - 1 < k < i + 1
      ensures !Before(t[k], t[k - 1])
    {
      if k > j + 1 {
        assert s[j..i + 1][k - j] == s[k] && s[j..i + 1][k - j - 1] == s[k - 1];
      }
    }
    if 0 < j - 1 {
      assert s[..j][j - 1] == s[j - 1] && s[..j][j - 2] == s[j - 2];
    }
  }

  /** Exchanging two neighbours inside the first i + 1 entries permutes
      those entries and leaves the rest alone. */
  lemma SwapInPrefix(s: seq<ValidatorEntry>, j: nat, i: nat)
    requires 0 < j <= i < |s|
    ensures var t := s[j - 1 := s[j]][j := s[j - 1]];
            multiset(t[..i + 1]) == multiset(s[..i + 1]) && t[i + 1..] == s[i + 1..]
  {
    var t := s[j - 1 := s[j]][j := s[j - 1]];
    assert t[..i + 1] == s[..i + 1][j - 1 := s[j]][j := s[j - 1]];
  }

  /** Permuting a prefix and keeping the rest permutes the whole sequence. */
  lemma PrefixAndRest(s: seq<ValidatorEntry>, t: seq<ValidatorEntry>, n: nat)
    requires n <= |s| == |t|
    requires multiset(s[..n]) == multiset(t[..n]) && s[n..] == t[n..]
    ensures multiset(s) == multiset(t)
  {
    assert s == s[..n] + s[n..] && t == t[..n] + t[n..];
  }

  /** When the moved entry stops, the two sorted segments join into one. */
  lemma JoinSorted(s: seq<ValidatorEntry>, j: nat, i: nat)
    requires j <= i < |s|
    requires Sorted(s[..j]) && Sorted(s[j..i + 1])
    requires j > 0 ==> !Before(s[j], s[j - 1])
    ensures Sorted(s[..i + 1])
  {
    forall k | 0 < k < i + 1
      ensures !Before(s[k], s[k - 1])
    {
      if k < j {
        assert s[..j][k] == s[k] && s[..j][k - 1] == s[k - 1];
      } else if k > j {
        assert s[j..i + 1][k - j] == s[k] && s[j..i + 1][k - j - 1] == s[k - 1];
      }
    }
  }
}
