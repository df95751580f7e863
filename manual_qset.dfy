/** `loadQset`: the operator-written `[QUORUM_SET]` group, with optional
    THRESHOLD_PERCENT, a VALIDATORS array and nested sub-groups, turned into a
    quorum-set tree. */
module ManualQuorumSet {
  import opened Wrappers
  import opened Keys
  import opened Toml
  import opened QuorumSets
  import opened Threshold
  import opened Registry

  const DefaultThresholdPercent: nat := 67

  /** What the loop over a group's entries has built so far: the threshold
      percentage, the validators pushed, the inner sets parsed, and the
      registry (VALIDATORS entries may name nodes). */
  datatype Partial = Partial(percent: nat, validators: seq<PublicKey>, innerSets: seq<QuorumSet>, names: seq<NameEntry>)

  /** The first n identities of a VALIDATORS array parsed one after the other. */
  function ParseNodeIDs(names: seq<NameEntry>, values: seq<string>, n: nat): (r: Result<(seq<PublicKey>, seq<NameEntry>), string>)
    requires n <= |values|
    ensures r.Ok? ==> |r.value.0| == n
  {
    if n == 0 then Ok(([], names))
    else
      match ParseNodeIDs(names, values, n - 1)
      case Err(e) => Err(e)
      case Ok((keys, names')) =>
        match ParseNodeID(names', values[n - 1])
        case Err(e) => Err(e)
        case Ok((k, names'')) => Ok((keys + [k], names''))
  }

  /** `loadQset(group, qset, level)`: the tree and the registry afterwards. */
  function LoadQset(names: seq<NameEntry>, group: Value, level: int): (r: Result<(QuorumSet, seq<NameEntry>), string>)
    decreases group, 1
    ensures !group.TableValue? ==> r == Err("invalid entry in quorum set definition")
    ensures group.TableValue? && level > 2 ==> r == Err("too many levels in quorum set")
    ensures r.Ok? ==> TopSize(r.value.0) >= 1 && r.value.0.threshold >= 1
  {
    if !group.TableValue? then Err("invalid entry in quorum set definition")
    else if level > 2 then Err("too many levels in quorum set")
    else
      match LoadEntries(names, group, |group.entries|, level)
      case Err(e) => Err(e)
      case Ok(p) =>
        var n := |p.validators| + |p.innerSets|;
        if n == 0 then Err("invalid quorum set definition")
        else Ok((QuorumSet(PercentThreshold(n, p.percent), p.validators, p.innerSets), p.names))
  }

  /** The state of `loadQset`'s loop after the first n entries of the group. */
  function LoadEntries(names: seq<NameEntry>, group: Value, n: nat, level: int): (r: Result<Partial, string>)
    requires group.TableValue? && n <= |group.entries|
    decreases group, 0, n
    ensures r.Ok? ==> 1 <= r.value.percent <= 100
  {
    if n == 0 then Ok(Partial(DefaultThresholdPercent, [], [], names))
    else
      match LoadEntries(names, group, n - 1, level)
      case Err(e) => Err(e)
      case Ok(p) =>
        var entry := group.entries[n - 1];
        if entry.key == "THRESHOLD_PERCENT" then
          if !entry.value.IntValue? || entry.value.i <= 0 || entry.value.i > 100 then Err("invalid THRESHOLD_PERCENT")
          else Ok(p.(percent := entry.value.i))
        else if entry.key == "VALIDATORS" then
          match ReadStringArray(entry.key, entry.value)
          case Err(e) => Err(e)
          case Ok(values) =>
            match ParseNodeIDs(p.names, values, |values|)
            case Err(e) => Err(e)
            case Ok((keys, names')) => Ok(p.(validators := p.validators + keys, names := names'))
        else
          var sub: Result<(QuorumSet, seq<NameEntry>), string> :=
            if !entry.value.TableValue? then Err("invalid quorum set, should be a group")
            else LoadQset(p.names, entry.value, level + 1);
          match sub
          case Err(e) => Err(e + " while parsing '" + entry.key + "'")
          case Ok((q, names')) => Ok(p.(innerSets := p.innerSets + [q], names := names'))
  }

  /** The percentage in force after the given entries: the last valid
      THRESHOLD_PERCENT, or 67 when there is none. */
  function EffectivePercent(entries: seq<Entry>): nat {
    if entries == [] then DefaultThresholdPercent
    else
      var last := entries[|entries| - 1];
      if last.key == "THRESHOLD_PERCENT" && last.value.IntValue? && 0 < last.value.i <= 100 then last.value.i
      else EffectivePercent(entries[..|entries| - 1])
  }

  /** Once the loop has failed, the rest of the entries do not change the error. */
  lemma {:induction false} LoadEntriesErrorPersists(names: seq<NameEntry>, group: Value, n: nat, m: nat, level: int)
    requires group.TableValue? && n <= m <= |group.entries|
    requires LoadEntries(names, group, n, level).Err?
    ensures LoadEntries(names, group, m, level) == LoadEntries(names, group, n, level)
    decreases m
  {
    if m > n {
      LoadEntriesErrorPersists(names, group, n, m - 1, level);
    }
  }

  lemma {:induction false} ParseNodeIDsErrorPersists(names: seq<NameEntry>, values: seq<string>, n: nat, m: nat)
    requires n <= m <= |values|
    requires ParseNodeIDs(names, values, n).Err?
    ensures ParseNodeIDs(names, values, m) == ParseNodeIDs(names, values, n)
    decreases m
  {
    if m > n {
      ParseNodeIDsErrorPersists(names, values, n, m - 1);
    }
  }

  /** A successful loop used the percentage of the last THRESHOLD_PERCENT entry, or 67. */
  lemma {:induction false} LoadEntriesPercent(names: seq<NameEntry>, group: Value, n: nat, level: int)
    requires group.TableValue? && n <= |group.entries|
    requires LoadEntries(names, group, n, level).Ok?
    ensures LoadEntries(names, group, n, level).value.percent == EffectivePercent(group.entries[..n])
    decreases n
  {
    if n > 0 {
      LoadEntriesPercent(names, group, n - 1, level);
      assert group.entries[..n][..n - 1] == group.entries[..n - 1];
    }
  }

  /** The threshold of a parsed group is the ceiling of n*p/100, where n counts
      its validators and inner sets and p is its THRESHOLD_PERCENT (default 67). */
  lemma LoadQsetThreshold(names: seq<NameEntry>, group: Value, level: int)
    requires LoadQset(names, group, level).Ok?
    ensures var q := LoadQset(names, group, level).value.0;
            var p := EffectivePercent(group.entries);
            && 1 <= p <= 100
            && q.threshold == PercentThreshold(TopSize(q), p)
            && 100 * (q.threshold - 1) < TopSize(q) * p <= 100 * q.threshold
            && 1 <= q.threshold <= TopSize(q)
  {
    LoadEntriesPercent(names, group, |group.entries|, level);
    assert group.entries[..|group.entries|] == group.entries;
    var q := LoadQset(names, group, level).value.0;
    PercentThresholdIsCeiling(TopSize(q), EffectivePercent(group.entries));
  }

  /** Every tree the parser accepts at `level` is at most 3 - level deep and
      has thresholds between 1 and the number of children at every node. */
  lemma {:induction false} LoadQsetShape(names: seq<NameEntry>, group: Value, level: int)
    requires 0 <= level
    requires LoadQset(names, group, level).Ok?
    ensures level <= 2
    ensures DepthAtMost(LoadQset(names, group, level).value.0, 3 - level)
    ensures ThresholdsInRange(LoadQset(names, group, level).value.0)
    decreases group, 1
  {
    LoadEntriesShape(names, group, |group.entries|, level);
    var p := LoadEntries(names, group, |group.entries|, level).value;
    PercentThresholdIsCeiling(|p.validators| + |p.innerSets|, p.percent);
  }

  lemma {:induction false} LoadEntriesShape(names: seq<NameEntry>, group: Value, n: nat, level: int)
    requires 0 <= level <= 2
    requires group.TableValue? && n <= |group.entries|
    requires LoadEntries(names, group, n, level).Ok?
    ensures var p := LoadEntries(names, group, n, level).value;
            forall i :: 0 <= i < |p.innerSets| ==>
              DepthAtMost(p.innerSets[i], 2 - level) && ThresholdsInRange(p.innerSets[i])
    decreases group, 0, n
  {
    if n > 0 {
      var p := LoadEntries(names, group, n - 1, level).value;
      LoadEntriesShape(names, group, n - 1, level);
      var entry := group.entries[n - 1];
      if entry.key != "THRESHOLD_PERCENT" && entry.key != "VALIDATORS" {
        LoadQsetShape(p.names, entry.value, level + 1);
      }
    }
  }

  /** The entry that first fails decides the error: a sub-entry that is not a
      table is reported with the name of that entry appended. */
  lemma NonTableSubEntryRejected(names: seq<NameEntry>, group: Value, j: nat, level: int)
    requires group.TableValue? && level <= 2 && j < |group.entries|
    requires LoadEntries(names, group, j, level).Ok?
    requires group.entries[j].key != "THRESHOLD_PERCENT" && group.entries[j].key != "VALIDATORS"
    requires !group.entries[j].value.TableValue?
    ensures LoadQset(names, group, level) ==
              Err("invalid quorum set, should be a group" + " while parsing '" + group.entries[j].key + "'")
  {
    assert LoadEntries(names, group, j + 1, level) ==
             Err("invalid quorum set, should be a group" + " while parsing '" + group.entries[j].key + "'");
    LoadEntriesErrorPersists(names, group, j + 1, |group.entries|, level);
  }

  /** A nested failure is re-raised with " while parsing '<key>'" appended. */
  lemma NestedErrorWrapped(names: seq<NameEntry>, group: Value, j: nat, level: int)
    requires group.TableValue? && level <= 2 && j < |group.entries|
    requires LoadEntries(names, group, j, level).Ok?
    requires group.entries[j].key != "THRESHOLD_PERCENT" && group.entries[j].key != "VALIDATORS"
    requires group.entries[j].value.TableValue?
    requires LoadQset(LoadEntries(names, group, j, level).value.names, group.entries[j].value, level + 1).Err?
    ensures LoadQset(names, group, level) ==
              Err(LoadQset(LoadEntries(names, group, j, level).value.names, group.entries[j].value, level + 1).error
                  + " while parsing '" + group.entries[j].key + "'")
  {
    var p := LoadEntries(names, group, j, level).value;
    var entry := group.entries[j];
    assert LoadEntries(names, group, j + 1, level) ==
             Err(LoadQset(p.names, entry.value, level + 1).error + " while parsing '" + entry.key + "'");
    LoadEntriesErrorPersists(names, group, j + 1, |group.entries|, level);
  }

  /** THRESHOLD_PERCENT must be an integer in 1..100. */
  lemma BadPercentRejected(names: seq<NameEntry>, group: Value, j: nat, level: int)
    requires group.TableValue? && level <= 2 && j < |group.entries|
    requires LoadEntries(names, group, j, level).Ok?
    requires group.entries[j].key == "THRESHOLD_PERCENT"
    requires !(group.entries[j].value.IntValue? && 1 <= group.entries[j].value.i <= 100)
    ensures LoadQset(names, group, level) == Err("invalid THRESHOLD_PERCENT")
  {
    assert LoadEntries(names, group, j + 1, level) == Err("invalid THRESHOLD_PERCENT");
    LoadEntriesErrorPersists(names, group, j + 1, |group.entries|, level);
  }

  /** THRESHOLD_PERCENT set to something other than an integer in 1..100. */
  predicate BadPercent(e: Entry) {
    e.key == "THRESHOLD_PERCENT" && !(e.value.IntValue? && 1 <= e.value.i <= 100)
  }

  /** The entry is neither THRESHOLD_PERCENT nor VALIDATORS: a sub-group. */
  predicate IsSubGroupKey(key: string) {
    key != "THRESHOLD_PERCENT" && key != "VALIDATORS"
  }

  /** Every entry is THRESHOLD_PERCENT or an empty VALIDATORS array. */
  predicate NoMembers(entries: seq<Entry>) {
    forall j :: 0 <= j < |entries| ==>
      !IsSubGroupKey(entries[j].key) && (entries[j].key == "VALIDATORS" ==> entries[j].value == ArrayValue([]))
  }

  lemma {:induction false} NoMembersEntries(names: seq<NameEntry>, group: Value, n: nat, level: int)
    requires group.TableValue? && n <= |group.entries| && NoMembers(group.entries)
    ensures var r := LoadEntries(names, group, n, level);
            && (r.Err? <==> exists j :: 0 <= j < n && BadPercent(group.entries[j]))
            && (r.Err? ==> r.error == "invalid THRESHOLD_PERCENT")
            && (r.Ok? ==> r.value.validators == [] && r.value.innerSets == [] && r.value.names == names)
  {
    if n > 0 {
      NoMembersEntries(names, group, n - 1, level);
      var entry := group.entries[n - 1];
      if entry.key == "VALIDATORS" {
        assert ReadStringArray(entry.key, entry.value) == Ok([]);
      }
    }
  }

  /** A group with neither validator strings nor sub-groups is rejected:
      with "invalid THRESHOLD_PERCENT" if one of its percentages is bad, and
      otherwise with "invalid quorum set definition". */
  lemma EmptyGroupRejected(names: seq<NameEntry>, entries: seq<Entry>, level: int)
    requires level <= 2 && NoMembers(entries)
    ensures LoadQset(names, TableValue(entries), level) ==
              Err(if exists j :: 0 <= j < |entries| && BadPercent(entries[j]) then "invalid THRESHOLD_PERCENT"
                  else "invalid quorum set definition")
  {
    NoMembersEntries(names, TableValue(entries), |entries|, level);
  }

  /** One more identity: the call for n + 1 strings extends the call for n
      with `parseNodeID` of the next string under the registry left so far. */
  lemma ParseNodeIDsStep(names: seq<NameEntry>, values: seq<string>, n: nat)
    requires n < |values|
    ensures ParseNodeIDs(names, values, n + 1).Ok? <==>
              ParseNodeIDs(names, values, n).Ok? && ParseNodeID(ParseNodeIDs(names, values, n).value.1, values[n]).Ok?
    ensures ParseNodeIDs(names, values, n + 1).Ok? ==>
              var prev := ParseNodeIDs(names, values, n).value;
              var next := ParseNodeID(prev.1, values[n]).value;
              ParseNodeIDs(names, values, n + 1).value == (prev.0 + [next.0], next.1)
  {
  }

  /** The keys of the first m strings start the keys of the first n. */
  lemma {:induction false} ParseNodeIDsGrows(names: seq<NameEntry>, values: seq<string>, m: nat, n: nat)
    requires m <= n <= |values|
    requires ParseNodeIDs(names, values, n).Ok?
    ensures ParseNodeIDs(names, values, m).Ok?
    ensures ParseNodeIDs(names, values, m).value.0 <= ParseNodeIDs(names, values, n).value.0
    decreases n
  {
    if m < n {
      ParseNodeIDsStep(names, values, n - 1);
      ParseNodeIDsGrows(names, values, m, n - 1);
    }
  }

  /** Each identity of a VALIDATORS array is parsed with the registry the
      earlier ones left: when the call succeeds, the k-th parse succeeded and
      the k-th key is what `parseNodeID` gives for the k-th string. */
  lemma ParseNodeIDsKey(names: seq<NameEntry>, values: seq<string>, n: nat, k: nat)
    requires k < n <= |values|
    requires ParseNodeIDs(names, values, n).Ok?
    ensures ParseNodeIDs(names, values, k).Ok?
    ensures ParseNodeID(ParseNodeIDs(names, values, k).value.1, values[k]).Ok?
    ensures ParseNodeIDs(names, values, n).value.0[k] == ParseNodeID(ParseNodeIDs(names, values, k).value.1, values[k]).value.0
  {
    ParseNodeIDsGrows(names, values, k + 1, n);
    ParseNodeIDsStep(names, values, k);
    assert ParseNodeIDs(names, values, k + 1).value.0[k] == ParseNodeIDs(names, values, n).value.0[k];
  }

  /** The k-th string is where the first n fail: the earlier ones parse, it
      does not, and its error is the one reported. */
  predicate FailsAt(names: seq<NameEntry>, values: seq<string>, n: nat, k: nat)
    requires k < n <= |values|
  {
    && ParseNodeIDs(names, values, k).Ok?
    && ParseNodeID(ParseNodeIDs(names, values, k).value.1, values[k]).Err?
    && ParseNodeIDs(names, values, n) == Err(ParseNodeID(ParseNodeIDs(names, values, k).value.1, values[k]).error)
  }

  /** When the call fails, some string failed to parse after all earlier ones
      succeeded, and its error is the one reported. */
  lemma {:induction false} ParseNodeIDsFirstError(names: seq<NameEntry>, values: seq<string>, n: nat)
    requires n <= |values|
    requires ParseNodeIDs(names, values, n).Err?
    ensures exists k :: 0 <= k < n && FailsAt(names, values, n, k)
    decreases n
  {
    if ParseNodeIDs(names, values, n - 1).Err? {
      ParseNodeIDsFirstError(names, values, n - 1);
      var k :| 0 <= k < n - 1 && FailsAt(names, values, n - 1, k);
      ParseNodeIDsErrorPersists(names, values, n - 1, n);
      assert FailsAt(names, values, n, k);
    } else {
      ParseNodeIDsStep(names, values, n - 1);
      assert FailsAt(names, values, n, n - 1);
    }
  }

  /** Parsing keeps the registry well formed. */
  lemma {:induction false} ParseNodeIDsWellFormed(names: seq<NameEntry>, values: seq<string>, n: nat)
    requires n <= |values| && WellFormed(names)
    requires ParseNodeIDs(names, values, n).Ok?
    ensures WellFormed(ParseNodeIDs(names, values, n).value.1)
    decreases n
  {
    if n > 0 {
      ParseNodeIDsWellFormed(names, values, n - 1);
      var names' := ParseNodeIDs(names, values, n - 1).value.1;
      if |values[n - 1]| >= 2 && values[n - 1][0] != '$' {
        ParseNodeIDSpec(names', values[n - 1]);
      }
    }
  }

  /** A VALIDATORS array of bare strkeys parses to exactly those keys, in
      order, and leaves the registry as it was. */
  lemma {:induction false} PlainKeysParsed(names: seq<NameEntry>, values: seq<string>, n: nat)
    requires n <= |values| && WellFormed(names)
    requires forall k :: 0 <= k < |values| ==> ValidStrKey(values[k])
    ensures var r := ParseNodeIDs(names, values, n);
            && r.Ok? && r.value.1 == names
            && forall k :: 0 <= k < n ==> ToStrKey(r.value.0[k]) == values[k]
    decreases n
  {
    if n > 0 {
      PlainKeysParsed(names, values, n - 1);
      PlainKeyParsed(names, values[n - 1]);
    }
  }

  lemma PlainKeyParsed(names: seq<NameEntry>, v: string)
    requires WellFormed(names) && ValidStrKey(v)
    ensures ParseNodeID(names, v).Ok? && ParseNodeID(names, v).value == (PublicKey(v), names)
  {
    assert !IsSpace(v[0]);
    assert forall k :: 0 <= k < |v| ==> !IsSpace(v[k]);
    ReadWordSpec(v, 0);
    var (key, pos) := ReadWord(v, 0);
    ReadWordSpec(v, pos);
    assert pos - |key| == 0;
    assert pos == |v|;
    assert key == v[0..|v|] == v;
    ParseNodeIDSpec(names, v);
  }

  /** How many sub-groups the entries hold. */
  function SubGroupCount(entries: seq<Entry>): (c: nat)
    ensures c <= |entries|
  {
    if entries == [] then 0
    else SubGroupCount(entries[..|entries| - 1]) + (if IsSubGroupKey(entries[|entries| - 1].key) then 1 else 0)
  }

  /** How many strings the VALIDATORS arrays among the entries hold. */
  function ValidatorCount(entries: seq<Entry>): nat {
    if entries == [] then 0
    else
      var e := entries[|entries| - 1];
      ValidatorCount(entries[..|entries| - 1]) + (if e.key == "VALIDATORS" && e.value.ArrayValue? then |e.value.items| else 0)
  }

  /** The loop pushes one inner set per sub-group entry and one validator
      per VALIDATORS string. */
  lemma {:induction false} LoadEntriesCounts(names: seq<NameEntry>, group: Value, n: nat, level: int)
    requires group.TableValue? && n <= |group.entries|
    requires LoadEntries(names, group, n, level).Ok?
    ensures |LoadEntries(names, group, n, level).value.innerSets| == SubGroupCount(group.entries[..n])
    ensures |LoadEntries(names, group, n, level).value.validators| == ValidatorCount(group.entries[..n])
    decreases n
  {
    if n > 0 {
      LoadEntriesCounts(names, group, n - 1, level);
      assert group.entries[..n][..n - 1] == group.entries[..n - 1];
    }
  }

  /** The loop only appends: what it held after m entries starts what it
      holds after n. */
  lemma {:induction false} LoadEntriesGrows(names: seq<NameEntry>, group: Value, m: nat, n: nat, level: int)
    requires group.TableValue? && m <= n <= |group.entries|
    requires LoadEntries(names, group, n, level).Ok?
    ensures LoadEntries(names, group, m, level).Ok?
    ensures LoadEntries(names, group, m, level).value.validators <= LoadEntries(names, group, n, level).value.validators
    ensures LoadEntries(names, group, m, level).value.innerSets <= LoadEntries(names, group, n, level).value.innerSets
    decreases n
  {
    if m < n {
      LoadEntriesGrows(names, group, m, n - 1, level);
    }
  }

  /** The inner set of sub-group entry j comes after those of the earlier
      entries, and is that entry parsed one level down with the registry the
      earlier entries left. */
  lemma LoadEntriesSubGroup(names: seq<NameEntry>, group: Value, n: nat, j: nat, level: int)
    requires group.TableValue? && j < n <= |group.entries|
    requires LoadEntries(names, group, n, level).Ok?
    requires IsSubGroupKey(group.entries[j].key)
    ensures LoadEntries(names, group, j, level).Ok?
    ensures group.entries[j].value.TableValue?
    ensures LoadQset(LoadEntries(names, group, j, level).value.names, group.entries[j].value, level + 1).Ok?
    ensures SubGroupCount(group.entries[..j]) < |LoadEntries(names, group, n, level).value.innerSets|
    ensures LoadEntries(names, group, n, level).value.innerSets[SubGroupCount(group.entries[..j])] ==
              LoadQset(LoadEntries(names, group, j, level).value.names, group.entries[j].value, level + 1).value.0
  {
    LoadEntriesGrows(names, group, j + 1, n, level);
    LoadEntriesCounts(names, group, j, level);
    var p := LoadEntries(names, group, j, level).value;
    assert LoadEntries(names, group, j + 1, level).value.innerSets ==
             p.innerSets + [LoadQset(p.names, group.entries[j].value, level + 1).value.0];
  }

  /** The keys of VALIDATORS entry j follow the strings of the earlier arrays,
      and are that array parsed with the registry the earlier entries left. */
  lemma LoadEntriesValidatorsAt(names: seq<NameEntry>, group: Value, n: nat, j: nat, level: int)
    requires group.TableValue? && j < n <= |group.entries|
    requires LoadEntries(names, group, n, level).Ok?
    requires group.entries[j].key == "VALIDATORS"
    ensures LoadEntries(names, group, j, level).Ok?
    ensures ReadStringArray("VALIDATORS", group.entries[j].value).Ok?
    ensures var values := ReadStringArray("VALIDATORS", group.entries[j].value).value;
            var keys := ParseNodeIDs(LoadEntries(names, group, j, level).value.names, values, |values|);
            var vs := LoadEntries(names, group, n, level).value.validators;
            && keys.Ok?
            && ValidatorCount(group.entries[..j]) <= ValidatorCount(group.entries[..j + 1]) <= |vs|
            && vs[ValidatorCount(group.entries[..j])..ValidatorCount(group.entries[..j + 1])] == keys.value.0
  {
    LoadEntriesGrows(names, group, j + 1, n, level);
    LoadEntriesCounts(names, group, j, level);
    LoadEntriesCounts(names, group, j + 1, level);
    var p := LoadEntries(names, group, j, level).value;
    var values := ReadStringArray("VALIDATORS", group.entries[j].value).value;
    var keys := ParseNodeIDs(p.names, values, |values|).value.0;
    var v1 := LoadEntries(names, group, j + 1, level).value.validators;
    assert v1 == p.validators + keys;
    assert v1[|p.validators|..|v1|] == keys;
  }

  /** A parsed group has one inner set per sub-group entry and one validator
      per VALIDATORS string; the inner set of sub-group entry j is the
      (SubGroupCount of the entries before j)-th, and is that entry parsed one
      level down with the registry the earlier entries left. */
  lemma LoadQsetInnerSet(names: seq<NameEntry>, group: Value, level: int, j: nat)
    requires LoadQset(names, group, level).Ok?
    requires j < |group.entries| && IsSubGroupKey(group.entries[j].key)
    ensures var q := LoadQset(names, group, level).value.0;
            && |q.validators| == ValidatorCount(group.entries)
            && |q.innerSets| == SubGroupCount(group.entries)
            && LoadEntries(names, group, j, level).Ok?
            && LoadQset(LoadEntries(names, group, j, level).value.names, group.entries[j].value, level + 1).Ok?
            && SubGroupCount(group.entries[..j]) < |q.innerSets|
            && q.innerSets[SubGroupCount(group.entries[..j])] ==
                 LoadQset(LoadEntries(names, group, j, level).value.names, group.entries[j].value, level + 1).value.0
  {
    LoadEntriesCounts(names, group, |group.entries|, level);
    LoadEntriesSubGroup(names, group, |group.entries|, j, level);
    assert group.entries[..|group.entries|] == group.entries;
  }

  /** The validators of a parsed group are the keys of its VALIDATORS arrays
      in entry order: those of entry j fill the positions after the strings
      of the earlier arrays. */
  lemma LoadQsetValidators(names: seq<NameEntry>, group: Value, level: int, j: nat)
    requires LoadQset(names, group, level).Ok?
    requires j < |group.entries| && group.entries[j].key == "VALIDATORS"
    ensures LoadEntries(names, group, j, level).Ok?
    ensures ReadStringArray("VALIDATORS", group.entries[j].value).Ok?
    ensures var q := LoadQset(names, group, level).value.0;
            var values := ReadStringArray("VALIDATORS", group.entries[j].value).value;
            && ParseNodeIDs(LoadEntries(names, group, j, level).value.names, values, |values|).Ok?
            && ValidatorCount(group.entries[..j]) <= ValidatorCount(group.entries[..j + 1]) <= |q.validators|
            && q.validators[ValidatorCount(group.entries[..j])..ValidatorCount(group.entries[..j + 1])] ==
                 ParseNodeIDs(LoadEntries(names, group, j, level).value.names, values, |values|).value.0
  {
    LoadEntriesValidatorsAt(names, group, |group.entries|, j, level);
  }

  /** Entry j passes `loadQset`'s loop in the state the earlier entries
      left: a THRESHOLD_PERCENT is an integer in 1..100, a VALIDATORS entry is
      an array of strings that all parse under the registry so far, and any
      other entry is a table the parser accepts one level down. */
  predicate EntryAccepted(names: seq<NameEntry>, group: Value, j: nat, level: int)
    requires group.TableValue? && j < |group.entries|
    requires LoadEntries(names, group, j, level).Ok?
  {
    var e := group.entries[j];
    var registry := LoadEntries(names, group, j, level).value.names;
    if e.key == "THRESHOLD_PERCENT" then e.value.IntValue? && 1 <= e.value.i <= 100
    else if e.key == "VALIDATORS" then
      && ReadStringArray(e.key, e.value).Ok?
      && ParseNodeIDs(registry, ReadStringArray(e.key, e.value).value, |ReadStringArray(e.key, e.value).value|).Ok?
    else e.value.TableValue? && LoadQset(registry, e.value, level + 1).Ok?
  }

  /** After j accepted entries, entry j is accepted exactly when it passes. */
  lemma LoadEntriesStepIff(names: seq<NameEntry>, group: Value, j: nat, level: int)
    requires group.TableValue? && j < |group.entries|
    requires LoadEntries(names, group, j, level).Ok?
    ensures LoadEntries(names, group, j + 1, level).Ok? <==> EntryAccepted(names, group, j, level)
  {
  }

  /** The loop over the first n entries succeeds exactly when each entry
      passes in the state the entries before it left. */
  lemma {:induction false} LoadEntriesAcceptedIff(names: seq<NameEntry>, group: Value, n: nat, level: int)
    requires group.TableValue? && n <= |group.entries|
    ensures LoadEntries(names, group, n, level).Ok? <==>
              forall j :: 0 <= j < n ==> LoadEntries(names, group, j, level).Ok? && EntryAccepted(names, group, j, level)
    decreases n
  {
    if n > 0 {
      LoadEntriesAcceptedIff(names, group, n - 1, level);
      if LoadEntries(names, group, n - 1, level).Ok? {
        LoadEntriesStepIff(names, group, n - 1, level);
      } else {
        LoadEntriesErrorPersists(names, group, n - 1, n, level);
      }
    }
  }

  /** Within three levels, a group is accepted exactly when its loop succeeds
      and it has at least one validator string or sub-group; the tree then
      has the threshold 1 + (n*p - 1)/100 over those n children, where p is
      the last THRESHOLD_PERCENT (67 without one). */
  lemma LoadQsetIff(names: seq<NameEntry>, group: Value, level: int)
    requires group.TableValue? && level <= 2
    ensures LoadQset(names, group, level).Ok? <==>
              LoadEntries(names, group, |group.entries|, level).Ok? &&
              ValidatorCount(group.entries) + SubGroupCount(group.entries) > 0
    ensures LoadQset(names, group, level).Ok? ==>
              && LoadEntries(names, group, |group.entries|, level).Ok?
              && 1 <= EffectivePercent(group.entries) <= 100
              && ValidatorCount(group.entries) + SubGroupCount(group.entries) > 0
              && var p := LoadEntries(names, group, |group.entries|, level).value;
                 LoadQset(names, group, level).value ==
                   (QuorumSet(PercentThreshold(ValidatorCount(group.entries) + SubGroupCount(group.entries),
                                               EffectivePercent(group.entries)),
                              p.validators, p.innerSets),
                    p.names)
  {
    if LoadEntries(names, group, |group.entries|, level).Ok? {
      LoadEntriesCounts(names, group, |group.entries|, level);
      LoadEntriesPercent(names, group, |group.entries|, level);
      assert group.entries[..|group.entries|] == group.entries;
    }
  }

  /** Within three levels, a group is accepted exactly when every entry
      passes in the state the earlier entries left and it has at least one
      validator string or sub-group. */
  lemma LoadQsetAcceptedIff(names: seq<NameEntry>, group: Value, level: int)
    requires group.TableValue? && level <= 2
    ensures LoadQset(names, group, level).Ok? <==>
              && (forall j :: 0 <= j < |group.entries| ==>
                    LoadEntries(names, group, j, level).Ok? && EntryAccepted(names, group, j, level))
              && ValidatorCount(group.entries) + SubGroupCount(group.entries) > 0
  {
    LoadEntriesAcceptedIff(names, group, |group.entries|, level);
    LoadQsetIff(names, group, level);
  }

  /** The group `{ THRESHOLD_PERCENT = p, VALIDATORS = [k1, ..., km] }`. */
  function PlainGroup(p: int, values: seq<string>): Value {
    TableValue([Entry("THRESHOLD_PERCENT", IntValue(p)),
                Entry("VALIDATORS", ArrayValue(seq(|values|, i requires 0 <= i < |values| => StringValue(values[i]))))])
  }

  /** A percentage in 1..100 and a non-empty array of bare strkeys are
      accepted: the validators are those keys, in order, there are no inner
      sets, the threshold is 1 + (m*p - 1)/100, and the registry is unchanged. */
  lemma PlainGroupAccepted(names: seq<NameEntry>, p: int, values: seq<string>, level: int)
    requires WellFormed(names) && 1 <= p <= 100 && level <= 2
    requires |values| > 0 && forall k :: 0 <= k < |values| ==> ValidStrKey(values[k])
    ensures var r := LoadQset(names, PlainGroup(p, values), level);
            && r.Ok?
            && r.value.0.threshold == PercentThreshold(|values|, p)
            && |r.value.0.validators| == |values|
            && (forall k :: 0 <= k < |values| ==> ToStrKey(r.value.0.validators[k]) == values[k])
            && r.value.0.innerSets == []
            && r.value.1 == names
  {
    PlainKeysParsed(names, values, |values|);
    var keys := ParseNodeIDs(names, values, |values|).value.0;
    PlainGroupLoop(names, p, values, keys, level);
  }

  /** The loop over a plain group, given what the key parser returns. */
  lemma PlainGroupLoop(names: seq<NameEntry>, p: int, values: seq<string>, keys: seq<PublicKey>, level: int)
    requires 1 <= p <= 100 && |values| > 0
    requires ParseNodeIDs(names, values, |values|) == Ok((keys, names))
    ensures LoadEntries(names, PlainGroup(p, values), 2, level) == Ok(Partial(p, keys, [], names))
  {
    var group := PlainGroup(p, values);
    var arr := group.entries[1].value;
    assert AllStrings(arr.items);
    assert ReadStringArray("VALIDATORS", arr).value == values;
    assert LoadEntries(names, group, 1, level) == Ok(Partial(p, [], [], names));
    assert [] + keys == keys;
  }
}
