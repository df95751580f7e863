/** The automatic quorum-set generator: `generateQuorumSetHelper` and
    `generateQuorumSet`. Validators are sorted by quality (descending) and
    home domain (ascending); every same-domain run of the current quality
    tier becomes one inner set with a simple-majority threshold, the lower
    tiers are nested as one last inner set, and each tier node uses the
    Byzantine threshold over its children. */
module Generator {
  import opened Wrappers
  import opened Keys
  import opened QuorumSets
  import opened Threshold
  import opened Qualities
  import opened Validators
  import opened ValidatorOrder

  /** The three exceptions the generator throws. */
  datatype GenError =
    | SameQuality(first: string, other: string)
    | Redundancy(name: string)
    | NotAscending(name: string)

  function Message(e: GenError): string {
    match e
    case SameQuality(a, b) => "Validators " + a + " and " + b + " must have same quality"
    case Redundancy(n) => "High quality validator " + n + " must have redundancy of at least 3"
    case NotAscending(n) => "invalid validator quality for " + n + " (must be ascending)"
  }

  function KeysOf(s: seq<ValidatorEntry>): (keys: seq<PublicKey>)
    ensures |keys| == |s| && forall i :: 0 <= i < |s| ==> keys[i] == s[i].key
  {
    seq(|s|, i requires 0 <= i < |s| => s[i].key)
  }

  // ------------------------------------------------------------ runs and tiers

  /** The first index at or after j whose home domain is not d. */
  function RunEndFrom(vs: seq<ValidatorEntry>, d: string, j: nat): (e: nat)
    requires j <= |vs|
    ensures j <= e <= |vs|
    ensures forall k :: j <= k < e ==> vs[k].homeDomain == d
    ensures e == |vs| || vs[e].homeDomain != d
    decreases |vs| - j
  {
    if j == |vs| || vs[j].homeDomain != d then j else RunEndFrom(vs, d, j + 1)
  }

  /** Where the inner `for` loop stops: one past the maximal run of entries
      sharing the home domain of vs[i]. */
  function RunEnd(vs: seq<ValidatorEntry>, i: nat): (e: nat)
    requires i < |vs|
    ensures i < e <= |vs|
    ensures forall k :: i <= k < e ==> vs[k].homeDomain == vs[i].homeDomain
    ensures e == |vs| || vs[e].homeDomain != vs[i].homeDomain
  {
    RunEndFrom(vs, vs[i].homeDomain, i + 1)
  }

  /** The inner `for` loop after visiting vs[it..k]: the keys collected so
      far, or the error for the first entry whose quality differs from
      vs[it]'s. */
  function RunPrefix(vs: seq<ValidatorEntry>, it: nat, k: nat): (r: Result<seq<PublicKey>, GenError>)
    requires it <= k <= |vs|
    ensures r.Ok? <==> forall j :: it <= j < k ==> vs[j].quality == vs[it].quality
    ensures r.Ok? ==> r.value == KeysOf(vs[it..k])
    ensures r.Err? ==> r.error.SameQuality? && exists j :: it < j < k && vs[j - 1].quality != vs[j].quality
    decreases k
  {
    if k == it then Ok([])
    else
      match RunPrefix(vs, it, k - 1)
      case Err(e) => Err(e)
      case Ok(keys) =>
        if vs[k - 1].quality != vs[it].quality then Err(SameQuality(vs[it].name, vs[k - 1].name))
        else Ok(keys + [vs[k - 1].key])
  }

  /** One more step of the inner loop, from a successful prefix. */
  lemma RunPrefixStep(vs: seq<ValidatorEntry>, it: nat, k: nat, vals: seq<PublicKey>)
    requires it <= k < |vs| && RunPrefix(vs, it, k) == Ok(vals)
    ensures RunPrefix(vs, it, k + 1) ==
              if vs[k].quality != vs[it].quality then Err(SameQuality(vs[it].name, vs[k].name)) else Ok(vals + [vs[k].key])
  {
  }

  lemma {:induction false} RunPrefixErrorPersists(vs: seq<ValidatorEntry>, it: nat, k: nat, m: nat)
    requires it <= k <= m <= |vs|
    requires RunPrefix(vs, it, k).Err?
    ensures RunPrefix(vs, it, m) == RunPrefix(vs, it, k)
    decreases m
  {
    if m > k {
      RunPrefixErrorPersists(vs, it, k, m - 1);
    }
  }

  /** One iteration of the `while` loop: the inner set of the same-domain run
      starting at it. */
  function Run(vs: seq<ValidatorEntry>, it: nat): (r: Result<QuorumSet, GenError>)
    requires it < |vs|
  {
    match RunPrefix(vs, it, RunEnd(vs, it))
    case Err(e) => Err(e)
    case Ok(vals) =>
      if |vals| < 3 && vs[it].quality == High then Err(Redundancy(vs[it].name))
      else
        var innerSet := QuorumSet(0, vals, []);
        Ok(innerSet.(threshold := ComputeDefaultThreshold(innerSet, true)))
  }

  /** A run's inner set is accepted exactly when the run has one quality and,
      if that quality is HIGH, at least three entries. It then holds the run's
      keys in order, has no inner sets and a simple-majority threshold. */
  lemma RunSpec(vs: seq<ValidatorEntry>, it: nat)
    requires it < |vs|
    ensures var e := RunEnd(vs, it);
            Run(vs, it).Ok? <==>
              (forall j :: it <= j < e ==> vs[j].quality == vs[it].quality) &&
              (vs[it].quality == High ==> e - it >= 3)
    ensures Run(vs, it).Ok? ==>
              var s := Run(vs, it).value;
              var n := RunEnd(vs, it) - it;
              && s.validators == KeysOf(vs[it..RunEnd(vs, it)]) && s.innerSets == []
              && n - s.threshold == (n - 1) / 2 && 2 * s.threshold > n
    ensures Run(vs, it).Err?  && Run(vs, it).error.SameQuality? ==>
              exists j :: it < j < RunEnd(vs, it) && vs[j - 1].quality != vs[j].quality
  {
  }

  /** Prepends the inner sets built so far to the rest of the loop's result. */
  function Prepend(sets: seq<QuorumSet>, rest: Result<(seq<QuorumSet>, nat), GenError>)
    : Result<(seq<QuorumSet>, nat), GenError>
  {
    match rest
    case Err(e) => Err(e)
    case Ok((more, stop)) => Ok((sets + more, stop))
  }

  lemma PrependNothing(rest: Result<(seq<QuorumSet>, nat), GenError>)
    ensures Prepend([], rest) == rest
  {
    if rest.Ok? {
      assert [] + rest.value.0 == rest.value.0;
    }
  }

  lemma PrependAssoc(sets: seq<QuorumSet>, s: QuorumSet, rest: Result<(seq<QuorumSet>, nat), GenError>)
    ensures Prepend(sets, Prepend([s], rest)) == Prepend(sets + [s], rest)
  {
    if rest.Ok? {
      assert sets + ([s] + rest.value.0) == (sets + [s]) + rest.value.0;
    }
  }

  /** The `while` loop from `it` on: the inner sets of the runs of quality q,
      and the index where the tier ends. */
  function TierRuns(vs: seq<ValidatorEntry>, it: nat, q: Quality): (r: Result<(seq<QuorumSet>, nat), GenError>)
    requires it <= |vs|
    ensures r.Ok? ==> it <= r.value.1 <= |vs|
    ensures r.Ok? ==> r.value.1 == |vs| || vs[r.value.1].quality != q
    ensures r.Ok? ==> forall k :: it <= k < r.value.1 ==> vs[k].quality == q
    ensures r.Err? ==> !r.error.NotAscending?
    decreases |vs| - it, 1
  {
    if it == |vs| || vs[it].quality != q then Ok(([], it)) else TierStep(vs, it, q)
  }

  /** One iteration of the `while` loop, then the rest of the loop: the inner
      set of the run starting at it, before those of the runs after it. */
  function TierStep(vs: seq<ValidatorEntry>, it: nat, q: Quality): (r: Result<(seq<QuorumSet>, nat), GenError>)
    requires it < |vs| && vs[it].quality == q
    ensures r.Ok? ==> it < r.value.1 <= |vs|
    ensures r.Ok? ==> r.value.1 == |vs| || vs[r.value.1].quality != q
    ensures r.Ok? ==> forall k :: it <= k < r.value.1 ==> vs[k].quality == q
    ensures r.Err? ==> !r.error.NotAscending?
    decreases |vs| - it, 0
  {
    match Run(vs, it)
    case Err(e) => Err(e)
    case Ok(innerSet) =>
      RunSpec(vs, it);
      Prepend([innerSet], TierRuns(vs, RunEnd(vs, it), q))
  }

  /** The loop from a run of the tier's quality: that run's inner set, then
      the loop from the run's end. */
  lemma TierRunsUnfold(vs: seq<ValidatorEntry>, it: nat, q: Quality)
    requires it < |vs| && vs[it].quality == q
    ensures Run(vs, it).Err? ==> TierRuns(vs, it, q) == Err(Run(vs, it).error)
    ensures Run(vs, it).Ok? ==> TierRuns(vs, it, q) == Prepend([Run(vs, it).value], TierRuns(vs, RunEnd(vs, it), q))
  {
    assert TierRuns(vs, it, q) == TierStep(vs, it, q);
  }

  /** A tier node: no validators of its own, the Byzantine threshold over its
      inner sets. */
  function Node(innerSets: seq<QuorumSet>): QuorumSet {
    var ret := QuorumSet(0, [], innerSets);
    ret.(threshold := ComputeDefaultThreshold(ret, false))
  }

  /** `generateQuorumSetHelper(begin, end, curQuality)`. */
  function Helper(vs: seq<ValidatorEntry>, begin: nat, q: Quality): (r: Result<QuorumSet, GenError>)
    requires begin <= |vs|
    decreases Rank(q)
  {
    match TierRuns(vs, begin, q)
    case Err(e) => Err(e)
    case Ok((innerSets, stop)) =>
      if stop == |vs| then Ok(Node(innerSets))
      else if Rank(vs[stop].quality) > Rank(q) then Err(NotAscending(vs[stop].name))
      else
        match Helper(vs, stop, vs[stop].quality)
        case Err(e) => Err(e)
        case Ok(lowQ) => Ok(Node(innerSets + [lowQ]))
  }

  // ------------------------------------------------------------ leaves

  lemma KeysOfSplit(s: seq<ValidatorEntry>, a: nat, b: nat, c: nat)
    requires a <= b <= c <= |s|
    ensures KeysOf(s[a..c]) == KeysOf(s[a..b]) + KeysOf(s[b..c])
  {
  }

  /** The inner sets of a tier hold, left to right, exactly the keys of the
      tier's entries. */
  lemma {:induction false} TierRunsLeaves(vs: seq<ValidatorEntry>, it: nat, q: Quality)
    requires it <= |vs| && TierRuns(vs, it, q).Ok?
    ensures LeavesOf(TierRuns(vs, it, q).value.0) == KeysOf(vs[it..TierRuns(vs, it, q).value.1])
    decreases |vs| - it
  {
    if it < |vs| && vs[it].quality == q {
      RunSpec(vs, it);
      TierRunsUnfold(vs, it, q);
      var e := RunEnd(vs, it);
      var s := Run(vs, it).value;
      TierRunsLeaves(vs, e, q);
      var (rest, stop) := TierRuns(vs, e, q).value;
      assert TierRuns(vs, it, q).value.0 == [s] + rest;
      assert ([s] + rest)[1..] == rest;
      assert Leaves(s) == KeysOf(vs[it..e]) by {
        assert LeavesOf([]) == [];
      }
      KeysOfSplit(vs, it, e, stop);
    } else {
      assert vs[it..it] == [];
    }
  }

  /** An accepted tier: its runs, then, unless the list ends there, the
      accepted lower tiers as one last inner set. */
  lemma HelperAccepted(vs: seq<ValidatorEntry>, begin: nat, q: Quality)
    requires begin <= |vs| && Helper(vs, begin, q).Ok?
    ensures TierRuns(vs, begin, q).Ok?
    ensures var (innerSets, stop) := TierRuns(vs, begin, q).value;
            && (stop == |vs| ==> Helper(vs, begin, q).value == Node(innerSets))
            && (stop < |vs| ==> Rank(vs[stop].quality) < Rank(q) && Helper(vs, stop, vs[stop].quality).Ok? &&
                                Helper(vs, begin, q).value == Node(innerSets + [Helper(vs, stop, vs[stop].quality).value]))
  {
  }

  /** Every key of vs[begin..] appears as a leaf of the generated tree, in
      order, and nothing else does. */
  lemma {:induction false} HelperLeaves(vs: seq<ValidatorEntry>, begin: nat, q: Quality)
    requires begin <= |vs| && Helper(vs, begin, q).Ok?
    ensures Leaves(Helper(vs, begin, q).value) == KeysOf(vs[begin..])
    decreases Rank(q)
  {
    HelperAccepted(vs, begin, q);
    var (innerSets, stop) := TierRuns(vs, begin, q).value;
    TierRunsLeaves(vs, begin, q);
    if stop == |vs| {
      NodeLeaves(innerSets, []);
      assert vs[begin..stop] == vs[begin..];
    } else {
      var q2 := vs[stop].quality;
      var lowQ := Helper(vs, stop, q2).value;
      HelperLeaves(vs, stop, q2);
      NodeLeaves(innerSets, [lowQ]);
      KeysOfSplit(vs, begin, stop, |vs|);
      assert vs[begin..|vs|] == vs[begin..] && vs[stop..|vs|] == vs[stop..];
    }
  }

  lemma NodeLeaves(innerSets: seq<QuorumSet>, last: seq<QuorumSet>)
    requires |last| <= 1
    ensures Leaves(Node(innerSets + last)) == LeavesOf(innerSets) + (if last == [] then [] else Leaves(last[0]))
  {
    LeavesOfAppend(innerSets, last);
    if last != [] {
      assert last[1..] == [];
    } else {
      assert innerSets + last == innerSets;
    }
  }

  // ------------------------------------------------------------ shape

  /** Every inner set of a tier is a flat set of at least one key (three for
      HIGH) with a simple-majority threshold. */
  lemma {:induction false} TierRunsShape(vs: seq<ValidatorEntry>, it: nat, q: Quality)
    requires it <= |vs| && TierRuns(vs, it, q).Ok?
    ensures var (innerSets, stop) := TierRuns(vs, it, q).value;
            && (innerSets == [] <==> stop == it)
            && forall i :: 0 <= i < |innerSets| ==>
                 && innerSets[i].innerSets == [] && ThresholdsInRange(innerSets[i]) && DepthAtMost(innerSets[i], 1)
                 && 2 * innerSets[i].threshold > |innerSets[i].validators|
                 && (q == High ==> |innerSets[i].validators| >= 3)
    decreases |vs| - it
  {
    if it < |vs| && vs[it].quality == q {
      RunSpec(vs, it);
      TierRunsUnfold(vs, it, q);
      TierRunsShape(vs, RunEnd(vs, it), q);
    }
  }

  /** A generated tier node has no validators of its own, a Byzantine
      threshold over its children, at most one level per remaining quality
      below its own plus the runs, and, when there is something to group,
      every threshold between 1 and its node's number of children. */
  lemma {:induction false} HelperShape(vs: seq<ValidatorEntry>, begin: nat, q: Quality)
    requires begin <= |vs| && Helper(vs, begin, q).Ok?
    ensures var node := Helper(vs, begin, q).value;
            && node.validators == []
            && DepthAtMost(node, Rank(q) + 2)
            && (begin < |vs| ==> ThresholdsInRange(node) && 3 * (TopSize(node) - node.threshold) < TopSize(node))
    decreases Rank(q)
  {
    HelperAccepted(vs, begin, q);
    TierRunsShape(vs, begin, q);
    var (innerSets, stop) := TierRuns(vs, begin, q).value;
    if stop < |vs| {
      var q2 := vs[stop].quality;
      HelperShape(vs, stop, q2);
      var lowQ := Helper(vs, stop, q2).value;
      var all := innerSets + [lowQ];
      assert Helper(vs, begin, q).value == Node(all);
      forall i | 0 <= i < |all|
        ensures DepthAtMost(all[i], Rank(q) + 1) && ThresholdsInRange(all[i])
      {
        if i < |innerSets| {
          assert all[i] == innerSets[i];
          DepthMonotone(innerSets[i], 1, Rank(q) + 1);
        } else {
          assert all[i] == lowQ;
          DepthMonotone(lowQ, Rank(q2) + 2, Rank(q) + 1);
        }
      }
    }
  }

  lemma {:induction false} DepthMonotone(q: QuorumSet, d: nat, e: nat)
    requires DepthAtMost(q, d) && d <= e
    ensures DepthAtMost(q, e)
    decreases q
  {
    forall i | 0 <= i < |q.innerSets|
      ensures DepthAtMost(q.innerSets[i], e - 1)
    {
      DepthMonotone(q.innerSets[i], d - 1, e - 1);
    }
  }

  // ------------------------------------------------------------ errors

  lemma TierRunsRejected(vs: seq<ValidatorEntry>, it: nat, q: Quality)
    requires it <= |vs| && TierRuns(vs, it, q).Err?
    ensures it < |vs| && vs[it].quality == q
    ensures Run(vs, it).Err? ==> TierRuns(vs, it, q).error == Run(vs, it).error
    ensures Run(vs, it).Ok? ==> TierRuns(vs, RunEnd(vs, it), q).Err? &&
                                TierRuns(vs, it, q).error == TierRuns(vs, RunEnd(vs, it), q).error
  {
    TierRunsUnfold(vs, it, q);
  }

  lemma HelperRejected(vs: seq<ValidatorEntry>, begin: nat, q: Quality)
    requires begin <= |vs| && Helper(vs, begin, q).Err?
    ensures TierRuns(vs, begin, q).Err? ==> Helper(vs, begin, q).error == TierRuns(vs, begin, q).error
    ensures TierRuns(vs, begin, q).Ok? ==>
              var stop := TierRuns(vs, begin, q).value.1;
              && stop < |vs|
              && (Rank(vs[stop].quality) > Rank(q) ==> Helper(vs, begin, q).error == NotAscending(vs[stop].name))
              && (Rank(vs[stop].quality) <= Rank(q) ==>
                    Helper(vs, stop, vs[stop].quality).Err? &&
                    Helper(vs, begin, q).error == Helper(vs, stop, vs[stop].quality).error)
  {
  }

  /** On a sorted list the "must be ascending" error cannot happen: quality
      never increases from one tier to the next. */
  lemma {:induction false} SortedNeverAscends(vs: seq<ValidatorEntry>, begin: nat, q: Quality)
    requires begin <= |vs| && Sorted(vs)
    requires begin < |vs| ==> Rank(vs[begin].quality) <= Rank(q)
    ensures Helper(vs, begin, q).Err? ==> !Helper(vs, begin, q).error.NotAscending?
    decreases Rank(q)
  {
    var tier := TierRuns(vs, begin, q);
    if Helper(vs, begin, q).Err? && tier.Ok? {
      HelperRejected(vs, begin, q);
      var stop := tier.value.1;
      if stop > begin {
        assert vs[stop - 1].quality == q;
        assert !Before(vs[stop], vs[stop - 1]);
      }
      SortedNeverAscends(vs, stop, vs[stop].quality);
    }
  }

  /** A quality mismatch is only ever found between two neighbours with the
      same home domain. */
  lemma {:induction false} TierSameQuality(vs: seq<ValidatorEntry>, it: nat, q: Quality)
    requires it <= |vs| && TierRuns(vs, it, q).Err? && TierRuns(vs, it, q).error.SameQuality?
    ensures exists k :: it < k < |vs| && vs[k - 1].homeDomain == vs[k].homeDomain && vs[k - 1].quality != vs[k].quality
    decreases |vs| - it
  {
    TierRunsRejected(vs, it, q);
    if Run(vs, it).Err? {
      RunMismatch(vs, it);
    } else {
      TierSameQuality(vs, RunEnd(vs, it), q);
    }
  }

  lemma RunMismatch(vs: seq<ValidatorEntry>, it: nat)
    requires it < |vs| && Run(vs, it).Err? && Run(vs, it).error.SameQuality?
    ensures exists k :: it < k < |vs| && vs[k - 1].homeDomain == vs[k].homeDomain && vs[k - 1].quality != vs[k].quality
  {
    var e := RunEnd(vs, it);
    assert RunPrefix(vs, it, e).Err?;
    var k :| it < k < e && vs[k - 1].quality != vs[k].quality;
    assert vs[k - 1].homeDomain == vs[it].homeDomain == vs[k].homeDomain;
  }

  lemma {:induction false} HelperSameQuality(vs: seq<ValidatorEntry>, begin: nat, q: Quality)
    requires begin <= |vs| && Helper(vs, begin, q).Err? && Helper(vs, begin, q).error.SameQuality?
    ensures exists k :: begin < k < |vs| && vs[k - 1].homeDomain == vs[k].homeDomain && vs[k - 1].quality != vs[k].quality
    decreases Rank(q)
  {
    HelperRejected(vs, begin, q);
    if TierRuns(vs, begin, q).Err? {
      TierSameQuality(vs, begin, q);
    } else {
      var stop := TierRuns(vs, begin, q).value.1;
      HelperSameQuality(vs, stop, vs[stop].quality);
    }
  }

  // ------------------------------------------------------------ acceptance

  /** No two neighbours after `begin` share a home domain but not a quality. */
  predicate DomainsUnmixed(vs: seq<ValidatorEntry>, begin: nat) {
    forall k :: begin < k < |vs| && vs[k - 1].homeDomain == vs[k].homeDomain ==> vs[k - 1].quality == vs[k].quality
  }

  /** Position i opens a same-domain run. */
  predicate RunStart(vs: seq<ValidatorEntry>, i: nat)
    requires i < |vs|
  {
    i == 0 || vs[i - 1].homeDomain != vs[i].homeDomain
  }

  /** Every HIGH run from `begin` on has at least three entries. */
  predicate HighRunsRedundant(vs: seq<ValidatorEntry>, begin: nat) {
    forall i :: begin <= i < |vs| && RunStart(vs, i) && vs[i].quality == High ==> RunEnd(vs, i) - i >= 3
  }

  /** The last run of a tier ends where the tier ends. */
  lemma {:induction false} TierEndsRun(vs: seq<ValidatorEntry>, it: nat, q: Quality)
    requires it <= |vs| && TierRuns(vs, it, q).Ok?
    ensures var stop := TierRuns(vs, it, q).value.1;
            it < stop < |vs| ==> vs[stop - 1].homeDomain != vs[stop].homeDomain
    decreases |vs| - it
  {
    if it < |vs| && vs[it].quality == q {
      RunSpec(vs, it);
      TierRunsUnfold(vs, it, q);
      var e := RunEnd(vs, it);
      TierEndsRun(vs, e, q);
      if TierRuns(vs, e, q).value.1 == e && e < |vs| {
        assert vs[e - 1].homeDomain == vs[it].homeDomain;
      }
    }
  }

  /** Every run that opens inside an accepted tier is the start of one of
      its inner sets, so a HIGH one has at least three entries. */
  lemma {:induction false} TierRunsRedundant(vs: seq<ValidatorEntry>, it: nat, q: Quality)
    requires it <= |vs| && TierRuns(vs, it, q).Ok?
    ensures var stop := TierRuns(vs, it, q).value.1;
            forall i :: it <= i < stop && (i == it || RunStart(vs, i)) && vs[i].quality == High ==> RunEnd(vs, i) - i >= 3
    decreases |vs| - it
  {
    if it < |vs| && vs[it].quality == q {
      RunSpec(vs, it);
      TierRunsUnfold(vs, it, q);
      var e := RunEnd(vs, it);
      TierRunsRedundant(vs, e, q);
      forall i | it < i < e
        ensures !RunStart(vs, i)
      {
        assert vs[i - 1].homeDomain == vs[it].homeDomain;
      }
    }
  }

  /** An accepted tree never mixes qualities within a domain run, and every
      HIGH run has at least three entries. */
  lemma HelperAcceptedConditions(vs: seq<ValidatorEntry>, begin: nat, q: Quality)
    requires begin <= |vs| && Helper(vs, begin, q).Ok?
    ensures DomainsUnmixed(vs, begin) && HighRunsRedundant(vs, begin)
  {
    HelperUnmixed(vs, begin, q);
    HelperRedundant(vs, begin, q);
  }

  /** An accepted tier's loop succeeded, and so did the lower tiers after it,
      which start at a lower quality. */
  lemma HelperTier(vs: seq<ValidatorEntry>, begin: nat, q: Quality)
    requires begin <= |vs| && Helper(vs, begin, q).Ok?
    ensures TierRuns(vs, begin, q).Ok?
    ensures var stop := TierRuns(vs, begin, q).value.1;
            stop < |vs| ==> Rank(vs[stop].quality) < Rank(q) && Helper(vs, stop, vs[stop].quality).Ok?
  {
  }

  lemma {:induction false} HelperUnmixed(vs: seq<ValidatorEntry>, begin: nat, q: Quality)
    requires begin <= |vs| && Helper(vs, begin, q).Ok?
    ensures DomainsUnmixed(vs, begin)
    decreases Rank(q)
  {
    HelperTier(vs, begin, q);
    TierEndsRun(vs, begin, q);
    var stop := TierRuns(vs, begin, q).value.1;
    if stop < |vs| {
      HelperUnmixed(vs, stop, vs[stop].quality);
    }
    UnmixedExtend(vs, begin, stop, q);
  }

  lemma {:induction false} HelperRedundant(vs: seq<ValidatorEntry>, begin: nat, q: Quality)
    requires begin <= |vs| && Helper(vs, begin, q).Ok?
    ensures HighRunsRedundant(vs, begin)
    decreases Rank(q)
  {
    HelperTier(vs, begin, q);
    TierRunsRedundant(vs, begin, q);
    var stop := TierRuns(vs, begin, q).value.1;
    if stop < |vs| {
      HelperRedundant(vs, stop, vs[stop].quality);
    }
    RedundantExtend(vs, begin, stop);
  }

  lemma UnmixedExtend(vs: seq<ValidatorEntry>, begin: nat, stop: nat, q: Quality)
    requires begin <= stop <= |vs|
    requires forall k :: begin <= k < stop ==> vs[k].quality == q
    requires begin < stop < |vs| ==> vs[stop - 1].homeDomain != vs[stop].homeDomain
    requires stop < |vs| ==> DomainsUnmixed(vs, stop)
    ensures DomainsUnmixed(vs, begin)
  {
  }

  lemma RedundantExtend(vs: seq<ValidatorEntry>, begin: nat, stop: nat)
    requires begin <= stop <= |vs|
    requires forall i :: begin <= i < stop && (i == begin || RunStart(vs, i)) && vs[i].quality == High ==> RunEnd(vs, i) - i >= 3
    requires stop < |vs| ==> HighRunsRedundant(vs, stop)
    ensures HighRunsRedundant(vs, begin)
  {
  }

  /** Inside one domain run with no mixed neighbours, every entry has the
      quality of the run's first. */
  lemma {:induction false} UnmixedRunUniform(vs: seq<ValidatorEntry>, it: nat, j: nat)
    requires it < |vs| && DomainsUnmixed(vs, it) && it <= j < RunEnd(vs, it)
    ensures vs[j].quality == vs[it].quality
    decreases j
  {
    if j > it {
      UnmixedRunUniform(vs, it, j - 1);
      assert vs[j - 1].homeDomain == vs[it].homeDomain == vs[j].homeDomain;
    }
  }

  lemma {:induction false} TierRunsAccept(vs: seq<ValidatorEntry>, it: nat, q: Quality)
    requires it <= |vs| && (it < |vs| ==> RunStart(vs, it))
    requires DomainsUnmixed(vs, it) && HighRunsRedundant(vs, it)
    ensures TierRuns(vs, it, q).Ok?
    ensures var stop := TierRuns(vs, it, q).value.1; stop < |vs| ==> RunStart(vs, stop)
    decreases |vs| - it
  {
    if it < |vs| && vs[it].quality == q {
      RunSpec(vs, it);
      TierRunsUnfold(vs, it, q);
      var e := RunEnd(vs, it);
      forall j | it <= j < e
        ensures vs[j].quality == vs[it].quality
      {
        UnmixedRunUniform(vs, it, j);
      }
      assert Run(vs, it).Ok?;
      TierRunsAccept(vs, e, q);
    }
  }

  lemma {:induction false} HelperAccepts(vs: seq<ValidatorEntry>, begin: nat, q: Quality)
    requires begin <= |vs| && Sorted(vs)
    requires begin < |vs| ==> RunStart(vs, begin) && Rank(vs[begin].quality) <= Rank(q)
    requires DomainsUnmixed(vs, begin) && HighRunsRedundant(vs, begin)
    ensures Helper(vs, begin, q).Ok?
    decreases Rank(q)
  {
    TierRunsAccept(vs, begin, q);
    var stop := TierRuns(vs, begin, q).value.1;
    if stop < |vs| {
      if stop > begin {
        assert vs[stop - 1].quality == q;
        assert !Before(vs[stop], vs[stop - 1]);
      }
      HelperAccepts(vs, stop, vs[stop].quality);
    }
  }

  /** On a sorted list the generator succeeds exactly when no home domain
      mixes qualities across neighbouring entries and every HIGH domain run
      has at least three validators. It never reports "must be ascending", and
      a quality mismatch is always between the last domain of one tier and the
      same first domain of the next, lower tier. */
  lemma GeneratorOutcome(vs: seq<ValidatorEntry>)
    requires Sorted(vs)
    ensures Helper(vs, 0, High).Ok? <==> DomainsUnmixed(vs, 0) && HighRunsRedundant(vs, 0)
    ensures Helper(vs, 0, High).Err? ==> !Helper(vs, 0, High).error.NotAscending?
    ensures Helper(vs, 0, High).Err? && Helper(vs, 0, High).error.SameQuality? ==>
              exists k :: 0 < k < |vs| && vs[k - 1].homeDomain == vs[k].homeDomain &&
                          Rank(vs[k].quality) < Rank(vs[k - 1].quality)
  {
    if Helper(vs, 0, High).Ok? {
      HelperAcceptedConditions(vs, 0, High);
    } else {
      if DomainsUnmixed(vs, 0) && HighRunsRedundant(vs, 0) {
        HelperAccepts(vs, 0, High);
      }
      SortedNeverAscends(vs, 0, High);
      if Helper(vs, 0, High).error.SameQuality? {
        HelperSameQuality(vs, 0, High);
        var k :| 0 < k < |vs| && vs[k - 1].homeDomain == vs[k].homeDomain && vs[k - 1].quality != vs[k].quality;
        assert !Before(vs[k], vs[k - 1]);
      }
    }
  }

  // ------------------------------------------------------------ permutation

  lemma {:induction false} KeysOfPermutation(s: seq<ValidatorEntry>, t: seq<ValidatorEntry>)
    requires multiset(s) == multiset(t)
    ensures multiset(KeysOf(s)) == multiset(KeysOf(t))
    decreases |s|
  {
    if s == [] {
      assert |t| == |multiset(t)| == 0;
    } else {
      var x := s[0];
      assert x in multiset(t);
      var i :| 0 <= i < |t| && t[i] == x;
      var t' := t[..i] + t[i + 1..];
      var s' := s[..0] + s[1..];
      RemoveAt(t, i);
      RemoveAt(s, 0);
      assert multiset(s') == multiset(t');
      KeysOfPermutation(s', t');
    }
  }

  /** Taking out the entry at i takes one copy of it, and of its key, out of
      the multisets. */
  lemma RemoveAt(t: seq<ValidatorEntry>, i: nat)
    requires i < |t|
    ensures multiset(t[..i] + t[i + 1..]) == multiset(t) - multiset{t[i]}
    ensures multiset(KeysOf(t)) == multiset(KeysOf(t[..i] + t[i + 1..])) + multiset{t[i].key}
  {
    assert t == t[..i] + [t[i]] + t[i + 1..];
    assert KeysOf(t) == KeysOf(t[..i]) + [t[i].key] + KeysOf(t[i + 1..]);
    assert KeysOf(t[..i] + t[i + 1..]) == KeysOf(t[..i]) + KeysOf(t[i + 1..]);
  }

  /** `generateQuorumSet` on any sorted rearrangement of the validators: an
      accepted tree holds every validator key exactly as often as the input
      does, has no validators at its root, a Byzantine root threshold, and at
      most four levels; when there is at least one validator every threshold
      lies between 1 and its node's number of children. */
  lemma GeneratedTree(validators: seq<ValidatorEntry>, todo: seq<ValidatorEntry>)
    requires Sorted(todo) && multiset(todo) == multiset(validators)
    requires Helper(todo, 0, High).Ok?
    ensures var qset := Helper(todo, 0, High).value;
            && multiset(Leaves(qset)) == multiset(KeysOf(validators))
            && qset.validators == [] && DepthAtMost(qset, 4)
            && (validators != [] ==> ThresholdsInRange(qset) && 3 * (TopSize(qset) - qset.threshold) < TopSize(qset))
  {
    HelperLeaves(todo, 0, High);
    assert todo[0..] == todo;
    KeysOfPermutation(todo, validators);
    HelperShape(todo, 0, High);
    if validators != [] {
      assert |multiset(todo)| == |todo|;
    }
  }

  // ------------------------------------------------------------ the methods

  /** The inner `for` loop of `generateQuorumSetHelper`: collects the keys of
      the same-domain run starting at it, failing on the first entry whose
      quality differs from vs[it]'s. */
  method CollectRun(vs: seq<ValidatorEntry>, it: nat) returns (r: Result<seq<PublicKey>, GenError>, it2: nat)
    requires it < |vs|
    ensures r == RunPrefix(vs, it, RunEnd(vs, it))
    ensures it2 == RunEnd(vs, it)
  {
    var vals: seq<PublicKey> := [];
    it2 := it;
    while it2 < |vs| && vs[it2].homeDomain == vs[it].homeDomain
      invariant it <= it2 <= RunEnd(vs, it)
      invariant RunPrefix(vs, it, it2) == Ok(vals)
      decreases |vs| - it2
    {
      assert it2 < RunEnd(vs, it);
      RunPrefixStep(vs, it, it2, vals);
      if vs[it2].quality != vs[it].quality {
        RunPrefixErrorPersists(vs, it, it2 + 1, RunEnd(vs, it));
        return Err(SameQuality(vs[it].name, vs[it2].name)), RunEnd(vs, it);
      }
      vals := vals + [vs[it2].key];
      it2 := it2 + 1;
    }
    assert it2 == RunEnd(vs, it);
    return Ok(vals), it2;
  }

  /** The body of `generateQuorumSetHelper`'s `while` loop: the inner `for`
      loop, then the redundancy check and the run's threshold. */
  method BuildRun(vs: seq<ValidatorEntry>, it: nat) returns (r: Result<QuorumSet, GenError>, it2: nat)
    requires it < |vs|
    ensures r == Run(vs, it)
    ensures it2 == RunEnd(vs, it)
  {
    var vals;
    vals, it2 := CollectRun(vs, it);
    if vals.Err? {
      return Err(vals.error), it2;
    }
    if |vals.value| < 3 && vs[it].quality == High {
      return Err(Redundancy(vs[it].name)), it2;
    }
    var innerSet := QuorumSet(0, vals.value, []);
    innerSet := innerSet.(threshold := ComputeDefaultThreshold(innerSet, true));
    return Ok(innerSet), it2;
  }

  /** `generateQuorumSetHelper`: the `while` loop over the runs of the current
      quality, then the recursion into the next tier. */
  method GenerateQuorumSetHelper(vs: seq<ValidatorEntry>, begin: nat, curQuality: Quality)
    returns (r: Result<QuorumSet, GenError>)
    requires begin <= |vs|
    ensures r == Helper(vs, begin, curQuality)
    decreases Rank(curQuality)
  {
    var it := begin;
    var innerSets: seq<QuorumSet> := [];
    PrependNothing(TierRuns(vs, begin, curQuality));
    while it < |vs| && vs[it].quality == curQuality
      invariant begin <= it <= |vs|
      invariant TierRuns(vs, begin, curQuality) == Prepend(innerSets, TierRuns(vs, it, curQuality))
      decreases |vs| - it
    {
      var innerSet, it2 := BuildRun(vs, it);
      if innerSet.Err? {
        return Err(innerSet.error);
      }
      PrependAssoc(innerSets, innerSet.value, TierRuns(vs, it2, curQuality));
      innerSets := innerSets + [innerSet.value];
      it := it2;
    }
    assert TierRuns(vs, it, curQuality) == Ok(([], it));
    assert innerSets + [] == innerSets;
    assert TierRuns(vs, begin, curQuality) == Ok((innerSets, it));
    if it < |vs| {
      if Rank(vs[it].quality) > Rank(curQuality) {
        return Err(NotAscending(vs[it].name));
      }
      var lowQ := GenerateQuorumSetHelper(vs, it, vs[it].quality);
      if lowQ.Err? {
        return Err(lowQ.error);
      }
      innerSets := innerSets + [lowQ.value];
    }
    var ret := QuorumSet(0, [], innerSets);
    return Ok(ret.(threshold := ComputeDefaultThreshold(ret, false)));
  }

  /** `generateQuorumSet`: sorts a copy of the validators, then builds the
      tree from the HIGH tier down. The sorted copy is returned as a ghost so
      that the lemmas above apply to the result. */
  method GenerateQuorumSet(validators: seq<ValidatorEntry>)
    returns (r: Result<QuorumSet, GenError>, ghost todo: seq<ValidatorEntry>)
    ensures Sorted(todo) && multiset(todo) == multiset(validators)
    ensures r == Helper(todo, 0, High)
  {
    var a := new ValidatorEntry[|validators|](i requires 0 <= i < |validators| => validators[i]);
    assert a[..] == validators;
    SortValidators(a);
    todo := a[..];
    r := GenerateQuorumSetHelper(a[..], 0, High);
  }

  // ------------------------------------------------------------ scenarios

  /** The three HIGH validators of `OneHighDomainOfThree` form one run of
      three, whose inner set needs two of the three keys. */
  lemma OneRunOfThree(k1: PublicKey, k2: PublicKey, k3: PublicKey)
    ensures var vs := [ValidatorEntry("v1", k1, "example.com", High, true),
                       ValidatorEntry("v2", k2, "example.com", High, true),
                       ValidatorEntry("v3", k3, "example.com", High, true)];
            && RunEnd(vs, 0) == 3
            && Run(vs, 0) == Ok(QuorumSet(2, [k1, k2, k3], []))
  {
    var vs := [ValidatorEntry("v1", k1, "example.com", High, true),
               ValidatorEntry("v2", k2, "example.com", High, true),
               ValidatorEntry("v3", k3, "example.com", High, true)];
    assert RunEnd(vs, 0) == 3;
    assert vs[0..3] == vs;
    assert KeysOf(vs) == [k1, k2, k3];
    assert RunPrefix(vs, 0, 3) == Ok([k1, k2, k3]);
  }

  /** Three HIGH validators of one home domain: one inner set with threshold
      2 of 3, under a root with threshold 1 of 1. */
  lemma OneHighDomainOfThree(k1: PublicKey, k2: PublicKey, k3: PublicKey)
    ensures var vs := [ValidatorEntry("v1", k1, "example.com", High, true),
                       ValidatorEntry("v2", k2, "example.com", High, true),
                       ValidatorEntry("v3", k3, "example.com", High, true)];
            && Sorted(vs)
            && Helper(vs, 0, High) == Ok(QuorumSet(1, [], [QuorumSet(2, [k1, k2, k3], [])]))
  {
    var vs := [ValidatorEntry("v1", k1, "example.com", High, true),
               ValidatorEntry("v2", k2, "example.com", High, true),
               ValidatorEntry("v3", k3, "example.com", High, true)];
    var inner := QuorumSet(2, [k1, k2, k3], []);
    OneRunOfThree(k1, k2, k3);
    TierRunsUnfold(vs, 0, High);
    assert TierRuns(vs, 3, High) == Ok(([], 3));
    assert [inner] + [] == [inner];
    assert Node([inner]) == QuorumSet(1, [], [inner]);
    forall k | 0 < k < |vs|
      ensures !Before(vs[k], vs[k - 1])
    {
      BeforeAsymmetric(vs[k], vs[k - 1]);
    }
  }

  /** A HIGH home domain with fewer than three validators at the head of the
      list (four lone HIGH validators, say) is rejected, naming its first
      validator. */
  lemma ShortHighDomainRejected(vs: seq<ValidatorEntry>)
    requires |vs| >= 1 && vs[0].quality == High && RunEnd(vs, 0) < 3
    requires forall j :: 0 <= j < RunEnd(vs, 0) ==> vs[j].quality == High
    ensures Helper(vs, 0, High) == Err(Redundancy(vs[0].name))
    ensures Message(Helper(vs, 0, High).error) ==
              "High quality validator " + vs[0].name + " must have redundancy of at least 3"
  {
    RunSpec(vs, 0);
    assert Run(vs, 0) == Err(Redundancy(vs[0].name));
    TierRunsUnfold(vs, 0, High);
  }
}
