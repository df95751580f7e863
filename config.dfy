/** `Config`: the state the quorum configuration code reads and updates in
    place (VALIDATOR_NAMES, KNOWN_PEERS, HISTORY, FAILURE_SAFETY), and the
    member functions that update it, each proved against the pure
    definitions of the other modules. */
module Configuration {
  import opened Wrappers
  import opened Keys
  import opened Toml
  import opened QuorumSets
  import opened Threshold
  import opened Qualities
  import opened Registry
  import opened ManualQuorumSet
  import opened Validators

  // ---------------------------------------------------------------- validateConfig

  /** FAILURE_SAFETY after `validateConfig` has filled in the default: -1
      asks for the number of top-level children minus the minimum threshold. */
  function EffectiveFailureSafety(q: QuorumSet, failureSafety: int, mixed: bool): int {
    if failureSafety == -1 then TopSize(q) - ComputeDefaultThreshold(q, !mixed) else failureSafety
  }

  /** `validateConfig(mixed)` on the quorum set q. `vBlockingSize` is the size
      of the closest v-blocking set `LocalNode::findClosestVBlocking` returns
      and `sane` the answer of `isQuorumSetSane(q, !unsafeQuorum)`. */
  function Validate(q: QuorumSet, failureSafety: int, unsafeQuorum: bool, mixed: bool,
                    vBlockingSize: nat, sane: bool): (r: Outcome<string>)
  {
    if AllNodes(q) == {} then Fail("no validators defined in VALIDATORS/QUORUM_SET")
    else
      var minSize := ComputeDefaultThreshold(q, !mixed);
      var fs := EffectiveFailureSafety(q, failureSafety, mixed);
      if fs >= vBlockingSize then Fail("FAILURE_SAFETY incompatible with QUORUM_SET")
      else if !unsafeQuorum && fs == 0 then Fail("SCP unsafe")
      else if !unsafeQuorum && q.threshold < minSize then Fail("SCP unsafe")
      else if !sane then Fail("Invalid QUORUM_SET")
      else Pass
  }

  /** The default FAILURE_SAFETY is the number of faulty top-level children
      the default threshold tolerates: (n-1)/2 for a flat set checked by
      simple majority, (n-1)/3 otherwise. It is never negative, and it is 0
      exactly for sets too small to tolerate a fault. */
  lemma DefaultFailureSafety(q: QuorumSet, mixed: bool)
    requires TopSize(q) >= 1
    ensures var fs := EffectiveFailureSafety(q, -1, mixed);
            var n := TopSize(q);
            && fs >= 0
            && (!mixed && q.innerSets == [] ==> fs == (n - 1) / 2 && (fs == 0 <==> n <= 2))
            && (mixed || q.innerSets != [] ==> fs == (n - 1) / 3 && (fs == 0 <==> n <= 3))
  {
  }

  /** A configuration passes exactly when the set names some validator, the
      failure safety stays below the smallest v-blocking set, the set is sane,
      and, unless UNSAFE_QUORUM is set, the failure safety is positive and the
      threshold is at least the default one. */
  lemma ValidateIff(q: QuorumSet, failureSafety: int, unsafeQuorum: bool, mixed: bool, vBlockingSize: nat, sane: bool)
    ensures var fs := EffectiveFailureSafety(q, failureSafety, mixed);
            Validate(q, failureSafety, unsafeQuorum, mixed, vBlockingSize, sane).Pass? <==>
              && Leaves(q) != []
              && fs < vBlockingSize
              && (!unsafeQuorum ==> fs != 0 && q.threshold >= ComputeDefaultThreshold(q, !mixed))
              && sane
  {
    if Leaves(q) != [] {
      assert Leaves(q)[0] in AllNodes(q);
    }
  }

  /** Without UNSAFE_QUORUM, an accepted quorum set keeps the default
      guarantee at its top level: more than half of a flat set checked by
      simple majority, otherwise more than two thirds of its children. */
  lemma ValidatedThreshold(q: QuorumSet, failureSafety: int, mixed: bool, vBlockingSize: nat, sane: bool)
    requires Validate(q, failureSafety, false, mixed, vBlockingSize, sane).Pass?
    ensures TopSize(q) >= 1 && q.threshold >= 1
    ensures !mixed && q.innerSets == [] ==> 2 * q.threshold > TopSize(q)
    ensures mixed || q.innerSets != [] ==> 3 * (TopSize(q) - q.threshold) < TopSize(q)
  {
    ValidateIff(q, failureSafety, false, mixed, vBlockingSize, sane);
    assert Leaves(q) != [];
  }

  /** A FAILURE_SAFETY of 0, given or derived, is refused unless UNSAFE_QUORUM
      is set: as "SCP unsafe", or earlier when no v-blocking set exists. */
  lemma ZeroFailureSafetyRejected(q: QuorumSet, failureSafety: int, mixed: bool, vBlockingSize: nat, sane: bool)
    requires AllNodes(q) != {} && EffectiveFailureSafety(q, failureSafety, mixed) == 0
    ensures Validate(q, failureSafety, false, mixed, vBlockingSize, sane) ==
              if vBlockingSize == 0 then Fail("FAILURE_SAFETY incompatible with QUORUM_SET") else Fail("SCP unsafe")
  {
  }

  // ---------------------------------------------------------------- the class

  class Config {
    /** VALIDATOR_NAMES, in insertion order. */
    var validatorNames: seq<NameEntry>
    var knownPeers: seq<string>
    var history: map<string, ArchiveConfig>
    var failureSafety: int
    var unsafeQuorum: bool
    var quorumSet: QuorumSet

    /** The defaults: no names, peers or archives, FAILURE_SAFETY = -1 (to be
        derived), UNSAFE_QUORUM off, an empty quorum set. */
    constructor ()
      ensures validatorNames == [] && knownPeers == [] && history == map[]
      ensures failureSafety == -1 && !unsafeQuorum && quorumSet == QuorumSet(0, [], [])
    {
      validatorNames := [];
      knownPeers := [];
      history := map[];
      failureSafety := -1;
      unsafeQuorum := false;
      quorumSet := QuorumSet(0, [], []);
    }

    function CurrentEnv(): Env
      reads this
    {
      Env(validatorNames, knownPeers, history)
    }

    /** `addValidatorName`: registers the name unless it already resolves or
        the key is already named; on failure the registry is untouched. */
    method AddValidatorName(pubKeyStr: string, name: string) returns (r: Outcome<string>)
      modifies this`validatorNames
      ensures var spec := AddName(old(validatorNames), pubKeyStr, name);
              && (r.Pass? <==> spec.Ok?)
              && (r.Pass? ==> validatorNames == spec.value)
              && (r.Fail? ==> r.error == spec.error && validatorNames == old(validatorNames))
    {
      if ResolveNodeID(validatorNames, "$" + name).Some? {
        return Fail("name already used: " + name);
      }
      if FindKey(validatorNames, pubKeyStr, 0).Some? {
        return Fail("naming node twice: " + name);
      }
      validatorNames := validatorNames + [NameEntry(pubKeyStr, name)];
      return Pass;
    }

    /** `parseNodeID(configStr, retKey)`. */
    method ParseNodeID(configStr: string) returns (r: Result<PublicKey, string>)
      modifies this`validatorNames
      ensures Paired(r, validatorNames) == Registry.ParseNodeID(old(validatorNames), configStr)
    {
      if |configStr| < 2 {
        return Err("invalid key: " + configStr);
      }
      if configStr[0] == '$' {
        var k := ResolveNodeID(validatorNames, configStr);
        if k.None? {
          return Err("unknown key in config: " + configStr);
        }
        return Ok(k.value);
      }
      var (nodestr, pos) := ReadWord(configStr, 0);
      var key := FromStrKey(nodestr);
      if key.None? {
        return Err(MalformedKey);
      }
      var (commonName, _) := ReadWord(configStr, pos);
      if commonName != "" {
        var added := AddValidatorName(nodestr, commonName);
        if added.Fail? {
          return Err(added.error);
        }
      }
      return Ok(key.value);
    }

    /** `loadQset(group, qset, level)`: the loop over the group's entries,
        the loop over a VALIDATORS array, and the recursion into sub-groups. */
    method LoadQset(group: Value, level: int) returns (r: Result<QuorumSet, string>)
      modifies this`validatorNames
      ensures var spec := ManualQuorumSet.LoadQset(old(validatorNames), group, level);
              && (r.Ok? <==> spec.Ok?)
              && (r.Ok? ==> r.value == spec.value.0 && validatorNames == spec.value.1)
              && (r.Err? ==> r.error == spec.error)
      decreases group
    {
      if !group.TableValue? {
        return Err("invalid entry in quorum set definition");
      }
      if level > 2 {
        return Err("too many levels in quorum set");
      }
      ghost var names0 := validatorNames;
      var thresholdPercent: nat := DefaultThresholdPercent;
      var validators: seq<PublicKey> := [];
      var innerSets: seq<QuorumSet> := [];
      var i := 0;
      while i < |group.entries|
        invariant 0 <= i <= |group.entries|
        invariant LoadEntries(names0, group, i, level) == Ok(Partial(thresholdPercent, validators, innerSets, validatorNames))
      {
        var item := group.entries[i];
        if item.key == "THRESHOLD_PERCENT" {
          if !item.value.IntValue? || item.value.i <= 0 || item.value.i > 100 {
            LoadEntriesErrorPersists(names0, group, i + 1, |group.entries|, level);
            return Err("invalid THRESHOLD_PERCENT");
          }
          thresholdPercent := item.value.i;
        } else if item.key == "VALIDATORS" {
          var values := ReadStringArray(item.key, item.value);
          if values.Err? {
            LoadEntriesErrorPersists(names0, group, i + 1, |group.entries|, level);
            return Err(values.error);
          }
          ghost var names1 := validatorNames;
          var keys: seq<PublicKey> := [];
          var j := 0;
          while j < |values.value|
            invariant 0 <= j <= |values.value|
            invariant ParseNodeIDs(names1, values.value, j) == Ok((keys, validatorNames))
          {
            var nodeID := ParseNodeID(values.value[j]);
            if nodeID.Err? {
              ParseNodeIDsErrorPersists(names1, values.value, j + 1, |values.value|);
              LoadEntriesErrorPersists(names0, group, i + 1, |group.entries|, level);
              return Err(nodeID.error);
            }
            keys := keys + [nodeID.value];
            j := j + 1;
          }
          validators := validators + keys;
        } else {
          if !item.value.TableValue? {
            LoadEntriesErrorPersists(names0, group, i + 1, |group.entries|, level);
            return Err("invalid quorum set, should be a group" + " while parsing '" + item.key + "'");
          }
          var sub := LoadQset(item.value, level + 1);
          if sub.Err? {
            LoadEntriesErrorPersists(names0, group, i + 1, |group.entries|, level);
            return Err(sub.error + " while parsing '" + item.key + "'");
          }
          innerSets := innerSets + [sub.value];
        }
        i := i + 1;
      }
      var n := |validators| + |innerSets|;
      if n == 0 {
        return Err("invalid quorum set definition");
      }
      return Ok(QuorumSet(PercentThreshold(n, thresholdPercent), validators, innerSets));
    }

    /** `addHistoryArchive`: archive names are unique; on a clash HISTORY is
        untouched. */
    method AddHistoryArchive(name: string, getCmd: string, putCmd: string, mkdirCmd: string) returns (r: Outcome<string>)
      modifies this`history
      ensures var spec := Validators.AddHistoryArchive(old(history), name, getCmd, putCmd, mkdirCmd);
              && (r.Pass? <==> spec.Ok?)
              && (r.Pass? ==> history == spec.value)
              && (r.Fail? ==> r.error == spec.error && history == old(history))
    {
      if name in history {
        return Fail("Conflicting archive name " + name);
      }
      history := history[name := ArchiveConfig(name, getCmd, putCmd, mkdirCmd)];
      return Pass;
    }

    /** `parseDomainsQuality`: the loop over the HOME_DOMAINS tables. */
    method ParseDomainsQuality(v: Value) returns (r: Result<map<string, Quality>, string>)
      ensures r == Validators.ParseDomainsQuality(v)
    {
      if !v.TableArrayValue? {
        return Err("malformed HOME_DOMAINS");
      }
      var res: map<string, Quality> := map[];
      var i := 0;
      while i < |v.tables|
        invariant 0 <= i <= |v.tables|
        invariant DomainsFold(v.tables, i) == Ok(res)
      {
        var d := ScanDomainTable(v.tables[i]);
        if d.Err? {
          DomainsFoldErrorPersists(v.tables, i + 1, |v.tables|);
          return Err(d.error);
        }
        var domain, quality := d.value.domain, d.value.quality;
        if quality.None? || domain == "" {
          DomainsFoldErrorPersists(v.tables, i + 1, |v.tables|);
          return Err("Malformed HOME_DOMAINS " + domain);
        }
        if domain in res {
          DomainsFoldErrorPersists(v.tables, i + 1, |v.tables|);
          return Err("Malformed HOME_DOMAINS: duplicate " + domain);
        }
        res := res[domain := quality.value];
        i := i + 1;
      }
      return Ok(res);
    }

    /** The field loop over one HOME_DOMAINS table: its `domain` and
        `quality` locals. */
    method ScanDomainTable(homeDomain: seq<Entry>) returns (r: Result<DomainDraft, string>)
      ensures r == ScanDomainFields(homeDomain, |homeDomain|)
    {
      var domain := "";
      var quality: Option<Quality> := None;
      var j := 0;
      while j < |homeDomain|
        invariant 0 <= j <= |homeDomain|
        invariant ScanDomainFields(homeDomain, j) == Ok(DomainDraft(domain, quality))
      {
        assert ScanDomainFields(homeDomain, j + 1) == DomainFieldStep(homeDomain, j);
        var f := homeDomain[j];
        if f.key == "QUALITY" {
          var q := ReadString(f.key, f.value);
          if q.Err? {
            ScanDomainErrorPersists(homeDomain, j + 1, |homeDomain|);
            return Err(q.error);
          }
          var parsed := ParseQuality(q.value);
          if parsed.Err? {
            ScanDomainErrorPersists(homeDomain, j + 1, |homeDomain|);
            return Err(parsed.error);
          }
          quality := Some(parsed.value);
        } else if f.key == "HOME_DOMAIN" {
          var d := ReadString(f.key, f.value);
          if d.Err? {
            ScanDomainErrorPersists(homeDomain, j + 1, |homeDomain|);
            return Err(d.error);
          }
          domain := d.value;
        } else {
          ScanDomainErrorPersists(homeDomain, j + 1, |homeDomain|);
          return Err("Unknown field " + f.key + " in HOME_DOMAINS");
        }
        j := j + 1;
      }
      return Ok(DomainDraft(domain, quality));
    }

    /** The field loop of one VALIDATORS entry: its locals as a `Draft`, with
        every ADDRESS pushed onto KNOWN_PEERS as it is read. */
    method ScanValidatorTable(t: seq<Entry>) returns (r: Result<Draft, string>)
      modifies this`knownPeers
      ensures r == ScanValidatorFields(t, |t|)
      ensures r.Ok? ==> knownPeers == old(knownPeers) + r.value.addresses
    {
      var name, homeDomain, pubKey, hist := "", "", "", "";
      var quality: Option<Quality> := None;
      var addresses: seq<string> := [];
      var j := 0;
      while j < |t|
        invariant 0 <= j <= |t|
        invariant ScanValidatorFields(t, j) == Ok(Draft(name, homeDomain, quality, pubKey, hist, addresses))
        invariant knownPeers == old(knownPeers) + addresses
      {
        assert ScanValidatorFields(t, j + 1) == ValidatorFieldStep(t, j);
        var f := t[j];
        var s := ReadString(f.key, f.value);
        if f.key !in {"NAME", "HOME_DOMAIN", "QUALITY", "PUBLIC_KEY", "ADDRESS", "HISTORY"} {
          ScanValidatorErrorPersists(t, j + 1, |t|);
          return Err("malformed VALIDATORS entry, unknown element '" + f.key + "'");
        }
        if s.Err? {
          ScanValidatorErrorPersists(t, j + 1, |t|);
          return Err(s.error);
        }
        if f.key == "NAME" {
          name := s.value;
        } else if f.key == "HOME_DOMAIN" {
          homeDomain := s.value;
        } else if f.key == "QUALITY" {
          var parsed := ParseQuality(s.value);
          if parsed.Err? {
            ScanValidatorErrorPersists(t, j + 1, |t|);
            return Err(parsed.error);
          }
          quality := Some(parsed.value);
        } else if f.key == "PUBLIC_KEY" {
          pubKey := s.value;
        } else if f.key == "ADDRESS" {
          knownPeers := knownPeers + [s.value];
          addresses := addresses + [s.value];
        } else {
          hist := s.value;
        }
        j := j + 1;
      }
      return Ok(Draft(name, homeDomain, quality, pubKey, hist, addresses));
    }

    /** The checks after the field loop, `addValidatorName`, the key decoding
        and `addHistoryArchive`, on the configuration state. */
    method FinishValidatorEntry(d: Draft, dq: map<string, Quality>) returns (r: Result<ValidatorEntry, string>)
      modifies this`validatorNames, this`history
      ensures Paired(r, CurrentEnv()) == FinishEntry(old(CurrentEnv()), d, dq)
    {
      if d.name == "" {
        return Err("malformed VALIDATORS entry: missing 'NAME'");
      }
      if d.pubKey == "" || d.homeDomain == "" {
        return Err("malformed VALIDATORS entry " + d.name);
      }
      if d.homeDomain in dq && d.quality.Some? {
        return Err("malformed VALIDATORS entry " + d.name + ": quality already defined in home domain " + d.homeDomain);
      }
      if d.homeDomain !in dq && d.quality.None? {
        return Err("malformed VALIDATORS entry " + d.name + " (missing quality)");
      }
      var quality := if d.homeDomain in dq then dq[d.homeDomain] else d.quality.value;
      var named := AddValidatorName(d.pubKey, d.name);
      if named.Fail? {
        return Err(named.error);
      }
      var key := FromStrKey(d.pubKey);
      if key.None? {
        return Err(MalformedKey);
      }
      var hasHistory := d.hist != "";
      if hasHistory {
        var archived := AddHistoryArchive(d.name, d.hist, "", "");
        if archived.Fail? {
          return Err(archived.error);
        }
      }
      if quality == High && d.hist == "" {
        return Err("malformed VALIDATORS entry " + d.name + " (high quality must have an archive)");
      }
      return Ok(ValidatorEntry(d.name, key.value, d.homeDomain, quality, hasHistory));
    }

    /** `parseValidators(validators, domainQualityMap)`: the entries, with
        VALIDATOR_NAMES, KNOWN_PEERS and HISTORY updated along the way. */
    method ParseValidators(v: Value, dq: map<string, Quality>) returns (r: Result<seq<ValidatorEntry>, string>)
      modifies this`validatorNames, this`knownPeers, this`history
      ensures Paired(r, CurrentEnv()) == Validators.ParseValidators(old(CurrentEnv()), v, dq)
    {
      if !v.TableArrayValue? {
        return Err("malformed VALIDATORS");
      }
      ghost var env0 := CurrentEnv();
      var res: seq<ValidatorEntry> := [];
      var i := 0;
      while i < |v.tables|
        invariant 0 <= i <= |v.tables|
        invariant ValidatorsFold(env0, v.tables, i, dq) == Ok((res, CurrentEnv()))
      {
        var entry := ParseValidatorEntry(v.tables[i], dq);
        if entry.Err? {
          EntryFails(env0, v.tables, i, dq);
          return Err(entry.error);
        }
        ValidatorsFoldUnfold(env0, v.tables, i + 1, dq);
        res := res + [entry.value];
        i := i + 1;
      }
      return Ok(res);
    }

    /** One iteration of `parseValidators`' loop: the field loop over one
        table, then the checks and updates of `FinishValidatorEntry`. */
    method ParseValidatorEntry(t: seq<Entry>, dq: map<string, Quality>) returns (r: Result<ValidatorEntry, string>)
      modifies this`validatorNames, this`knownPeers, this`history
      ensures Paired(r, CurrentEnv()) == AddValidator(old(CurrentEnv()), t, dq)
    {
      ghost var step := AddValidator(CurrentEnv(), t, dq);
      var d := ScanValidatorTable(t);
      if d.Err? {
        assert step == Err(d.error);
        return Err(d.error);
      }
      AddValidatorUnfold(old(CurrentEnv()), t, dq);
      assert step == FinishEntry(CurrentEnv(), d.value, dq);
      r := FinishValidatorEntry(d.value, dq);
    }

    /** `validateConfig(mixed)` on QUORUM_SET. `vBlockingSize` stands for
        `LocalNode::findClosestVBlocking` and `isSane` for `isQuorumSetSane`.
        A FAILURE_SAFETY of -1 is replaced by its derived value once the set
        is known to name a validator, even when a later check fails. */
    method ValidateConfig(mixed: bool, vBlockingSize: QuorumSet -> nat, isSane: (QuorumSet, bool) -> bool)
      returns (r: Outcome<string>)
      modifies this`failureSafety
      ensures r == Validate(quorumSet, old(failureSafety), unsafeQuorum, mixed,
                            vBlockingSize(quorumSet), isSane(quorumSet, !unsafeQuorum))
      ensures failureSafety == if AllNodes(quorumSet) == {} then old(failureSafety)
                               else EffectiveFailureSafety(quorumSet, old(failureSafety), mixed)
    {
      if AllNodes(quorumSet) == {} {
        return Fail("no validators defined in VALIDATORS/QUORUM_SET");
      }
      var blocking := vBlockingSize(quorumSet);
      var minSize := ComputeDefaultThreshold(quorumSet, !mixed);
      if failureSafety == -1 {
        failureSafety := TopSize(quorumSet) - minSize;
      }
      if failureSafety >= blocking {
        return Fail("FAILURE_SAFETY incompatible with QUORUM_SET");
      }
      if !unsafeQuorum {
        if failureSafety == 0 {
          return Fail("SCP unsafe");
        }
        if quorumSet.threshold < minSize {
          return Fail("SCP unsafe");
        }
      }
      if !isSane(quorumSet, !unsafeQuorum) {
        return Fail("Invalid QUORUM_SET");
      }
      return Pass;
    }
  }
}
