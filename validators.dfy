/** The validator/domain model: `[[HOME_DOMAINS]]` (domain -> quality),
    `[[VALIDATORS]]` entries and the synthesized entry for the node itself. */
module Validators {
  import opened Wrappers
  import opened Keys
  import opened Toml
  import opened Qualities
  import opened Registry

  /** `Config::ValidatorEntry`. */
  datatype ValidatorEntry = ValidatorEntry(name: string, key: PublicKey, homeDomain: string, quality: Quality, hasHistory: bool)

  /** `HistoryArchiveConfiguration`. */
  datatype ArchiveConfig = ArchiveConfig(name: string, getCmd: string, putCmd: string, mkdirCmd: string)

  /** The parts of the configuration that reading VALIDATORS updates:
      VALIDATOR_NAMES, KNOWN_PEERS and HISTORY. */
  datatype Env = Env(names: seq<NameEntry>, knownPeers: seq<string>, history: map<string, ArchiveConfig>)

  // ---------------------------------------------------------------- HOME_DOMAINS

  /** The locals of `parseDomainsQuality`'s loop over one table: `domain`, and
      `quality` together with `qualitySet`. */
  datatype DomainDraft = DomainDraft(domain: string, quality: Option<Quality>)

  /** A field the HOME_DOMAINS loop accepts. */
  predicate DomainFieldAcceptable(f: Entry) {
    || (f.key == "QUALITY" && f.value.StringValue? && ParseQuality(f.value.s).Ok?)
    || (f.key == "HOME_DOMAIN" && f.value.StringValue?)
  }

  /** The locals after the first n fields of one HOME_DOMAINS table. */
  function ScanDomainFields(fields: seq<Entry>, n: nat): (r: Result<DomainDraft, string>)
    requires n <= |fields|
    decreases n, 0
  {
    if n == 0 then Ok(DomainDraft("", None)) else DomainFieldStep(fields, n - 1)
  }

  /** One iteration of the field loop: field i, read into the locals the
      first i fields left. */
  function DomainFieldStep(fields: seq<Entry>, i: nat): (r: Result<DomainDraft, string>)
    requires i < |fields|
    decreases i, 1
  {
    match ScanDomainFields(fields, i)
    case Err(e) => Err(e)
    case Ok(d) =>
      var f := fields[i];
      if f.key == "QUALITY" then
        match ReadString(f.key, f.value)
        case Err(e) => Err(e)
        case Ok(s) =>
          match ParseQuality(s)
          case Err(e) => Err(e)
          case Ok(q) => Ok(d.(quality := Some(q)))
      else if f.key == "HOME_DOMAIN" then
        match ReadString(f.key, f.value)
        case Err(e) => Err(e)
        case Ok(s) => Ok(d.(domain := s))
      else Err("Unknown field " + f.key + " in HOME_DOMAINS")
  }

  /** One iteration of the outer loop: the table's domain and quality added
      to the map, unless the table is malformed or repeats a domain. */
  function AddDomain(m: map<string, Quality>, t: seq<Entry>): (r: Result<map<string, Quality>, string>)
  {
    match ScanDomainFields(t, |t|)
    case Err(e) => Err(e)
    case Ok(d) =>
      if d.quality.None? || d.domain == "" then Err("Malformed HOME_DOMAINS " + d.domain)
      else if d.domain in m then Err("Malformed HOME_DOMAINS: duplicate " + d.domain)
      else Ok(m[d.domain := d.quality.value])
  }

  /** The map after the first n tables. */
  function DomainsFold(tables: seq<seq<Entry>>, n: nat): (r: Result<map<string, Quality>, string>)
    requires n <= |tables|
  {
    if n == 0 then Ok(map[])
    else
      match DomainsFold(tables, n - 1)
      case Err(e) => Err(e)
      case Ok(m) => AddDomain(m, tables[n - 1])
  }

  /** `parseDomainsQuality`. */
  function ParseDomainsQuality(v: Value): (r: Result<map<string, Quality>, string>)
    ensures !v.TableArrayValue? ==> r == Err("malformed HOME_DOMAINS")
  {
    if !v.TableArrayValue? then Err("malformed HOME_DOMAINS") else DomainsFold(v.tables, |v.tables|)
  }

  lemma {:induction false} ScanDomainErrorPersists(fields: seq<Entry>, n: nat, m: nat)
    requires n <= m <= |fields|
    requires ScanDomainFields(fields, n).Err?
    ensures ScanDomainFields(fields, m) == ScanDomainFields(fields, n)
    decreases m
  {
    if m > n {
      ScanDomainErrorPersists(fields, n, m - 1);
      assert ScanDomainFields(fields, m) == DomainFieldStep(fields, m - 1);
    }
  }

  lemma {:induction false} DomainsFoldErrorPersists(tables: seq<seq<Entry>>, n: nat, m: nat)
    requires n <= m <= |tables|
    requires DomainsFold(tables, n).Err?
    ensures DomainsFold(tables, m) == DomainsFold(tables, n)
    decreases m
  {
    if m > n {
      DomainsFoldErrorPersists(tables, n, m - 1);
    }
  }

  /** The field loop succeeds exactly when every field is QUALITY (a known
      quality name) or HOME_DOMAIN (a string); the quality is then set exactly
      when a QUALITY field is present. */
  lemma {:induction false} ScanDomainFieldsSpec(fields: seq<Entry>, n: nat)
    requires n <= |fields|
    ensures ScanDomainFields(fields, n).Ok? <==> forall j :: 0 <= j < n ==> DomainFieldAcceptable(fields[j])
    ensures ScanDomainFields(fields, n).Ok? ==>
              (ScanDomainFields(fields, n).value.quality.Some? <==> exists j :: 0 <= j < n && fields[j].key == "QUALITY")
    ensures ScanDomainFields(fields, n).Ok? && ScanDomainFields(fields, n).value.domain != "" ==>
              exists j :: 0 <= j < n && fields[j] == Entry("HOME_DOMAIN", StringValue(ScanDomainFields(fields, n).value.domain))
  {
    if n > 0 {
      ScanDomainFieldsSpec(fields, n - 1);
      assert ScanDomainFields(fields, n) == DomainFieldStep(fields, n - 1);
    }
  }

  /** A HOME_DOMAINS table that declares a non-empty domain and a quality. */
  predicate DomainTableAccepted(t: seq<Entry>) {
    var r := ScanDomainFields(t, |t|);
    r.Ok? && r.value.quality.Some? && r.value.domain != ""
  }

  function DeclaredDomain(t: seq<Entry>): string
    requires DomainTableAccepted(t)
  {
    ScanDomainFields(t, |t|).value.domain
  }

  function DeclaredQuality(t: seq<Entry>): Quality
    requires DomainTableAccepted(t)
  {
    ScanDomainFields(t, |t|).value.quality.value
  }

  lemma AddDomainSpec(m: map<string, Quality>, t: seq<Entry>)
    ensures AddDomain(m, t).Ok? <==> DomainTableAccepted(t) && DeclaredDomain(t) !in m
    ensures AddDomain(m, t).Ok? ==> AddDomain(m, t).value == m[DeclaredDomain(t) := DeclaredQuality(t)]
  {
  }

  /** No two of the first n tables declare the same domain. */
  predicate DistinctDomains(tables: seq<seq<Entry>>, n: nat)
    requires n <= |tables|
  {
    forall i, j :: 0 <= i < j < n && DomainTableAccepted(tables[i]) && DomainTableAccepted(tables[j]) ==>
                   DeclaredDomain(tables[i]) != DeclaredDomain(tables[j])
  }

  /** The map after n tables holds exactly the n declared domains, each with its quality. */
  predicate MapsDeclared(tables: seq<seq<Entry>>, n: nat, m: map<string, Quality>)
    requires n <= |tables|
    requires forall i :: 0 <= i < n ==> DomainTableAccepted(tables[i])
  {
    && (forall i :: 0 <= i < n ==> DeclaredDomain(tables[i]) in m && m[DeclaredDomain(tables[i])] == DeclaredQuality(tables[i]))
    && (forall d :: d in m ==> exists i :: 0 <= i < n && DeclaredDomain(tables[i]) == d)
  }

  /** The fold succeeds exactly when every table is accepted and no two
      tables declare the same domain; the map then sends each declared domain
      to its declared quality and has nothing else. */
  lemma {:induction false} DomainsFoldSpec(tables: seq<seq<Entry>>, n: nat)
    requires n <= |tables|
    ensures DomainsFold(tables, n).Ok? <==>
              (forall i :: 0 <= i < n ==> DomainTableAccepted(tables[i])) && DistinctDomains(tables, n)
    ensures DomainsFold(tables, n).Ok? ==>
              |DomainsFold(tables, n).value| == n && MapsDeclared(tables, n, DomainsFold(tables, n).value)
  {
    if n > 0 {
      DomainsFoldSpec(tables, n - 1);
      DomainsFoldStep(tables, n);
    }
  }

  /** The inductive step of `DomainsFoldSpec`. */
  lemma DomainsFoldStep(tables: seq<seq<Entry>>, n: nat)
    requires 0 < n <= |tables|
    requires DomainsFold(tables, n - 1).Ok? <==>
               (forall i :: 0 <= i < n - 1 ==> DomainTableAccepted(tables[i])) && DistinctDomains(tables, n - 1)
    requires DomainsFold(tables, n - 1).Ok? ==>
               |DomainsFold(tables, n - 1).value| == n - 1 && MapsDeclared(tables, n - 1, DomainsFold(tables, n - 1).value)
    ensures DomainsFold(tables, n).Ok? <==>
              (forall i :: 0 <= i < n ==> DomainTableAccepted(tables[i])) && DistinctDomains(tables, n)
    ensures DomainsFold(tables, n).Ok? ==>
              |DomainsFold(tables, n).value| == n && MapsDeclared(tables, n, DomainsFold(tables, n).value)
  {
    var prev := DomainsFold(tables, n - 1);
    if prev.Err? {
      DomainsFoldErrorPersists(tables, n - 1, n);
      AcceptedPrefix(tables, n);
      return;
    }
    var m := prev.value;
    var t := tables[n - 1];
    AddDomainSpec(m, t);
    FoldUnfold(tables, n, m);
    if DomainTableAccepted(t) {
      var d := DeclaredDomain(t);
      if d in m {
        RepeatedDomainNotDistinct(tables, n, m);
      } else {
        DistinctDomainsExtend(tables, n, m);
        MapsDeclaredExtend(tables, n, m);
      }
    }
  }

  /** What holds of the first n tables holds of the first n - 1. */
  lemma AcceptedPrefix(tables: seq<seq<Entry>>, n: nat)
    requires 0 < n <= |tables|
    ensures (forall i :: 0 <= i < n ==> DomainTableAccepted(tables[i])) && DistinctDomains(tables, n) ==>
              (forall i :: 0 <= i < n - 1 ==> DomainTableAccepted(tables[i])) && DistinctDomains(tables, n - 1)
  {
  }

  lemma FoldUnfold(tables: seq<seq<Entry>>, n: nat, m: map<string, Quality>)
    requires 0 < n <= |tables|
    requires DomainsFold(tables, n - 1) == Ok(m)
    ensures DomainsFold(tables, n) == AddDomain(m, tables[n - 1])
  {
  }

  lemma RepeatedDomainNotDistinct(tables: seq<seq<Entry>>, n: nat, m: map<string, Quality>)
    requires 0 < n <= |tables|
    requires forall i :: 0 <= i < n - 1 ==> DomainTableAccepted(tables[i])
    requires DomainTableAccepted(tables[n - 1])
    requires MapsDeclared(tables, n - 1, m)
    requires DeclaredDomain(tables[n - 1]) in m
    ensures !DistinctDomains(tables, n)
  {
    var i :| 0 <= i < n - 1 && DeclaredDomain(tables[i]) == DeclaredDomain(tables[n - 1]);
  }

  lemma DistinctDomainsExtend(tables: seq<seq<Entry>>, n: nat, m: map<string, Quality>)
    requires 0 < n <= |tables|
    requires forall i :: 0 <= i < n - 1 ==> DomainTableAccepted(tables[i])
    requires DomainTableAccepted(tables[n - 1])
    requires DistinctDomains(tables, n - 1)
    requires MapsDeclared(tables, n - 1, m)
    requires DeclaredDomain(tables[n - 1]) !in m
    ensures DistinctDomains(tables, n)
  {
    forall i, j | 0 <= i < j < n && DomainTableAccepted(tables[i]) && DomainTableAccepted(tables[j])
      ensures DeclaredDomain(tables[i]) != DeclaredDomain(tables[j])
    {
      if j == n - 1 {
        assert DeclaredDomain(tables[i]) in m;
      }
    }
  }

  lemma MapsDeclaredExtend(tables: seq<seq<Entry>>, n: nat, m: map<string, Quality>)
    requires 0 < n <= |tables|
    requires forall i :: 0 <= i < n ==> DomainTableAccepted(tables[i])
    requires |m| == n - 1 && MapsDeclared(tables, n - 1, m)
    requires DeclaredDomain(tables[n - 1]) !in m
    ensures var m' := m[DeclaredDomain(tables[n - 1]) := DeclaredQuality(tables[n - 1])];
            |m'| == n && MapsDeclared(tables, n, m')
  {
    var d := DeclaredDomain(tables[n - 1]);
    var m' := m[d := DeclaredQuality(tables[n - 1])];
    forall i | 0 <= i < n
      ensures DeclaredDomain(tables[i]) in m' && m'[DeclaredDomain(tables[i])] == DeclaredQuality(tables[i])
    {
      if i < n - 1 {
        assert DeclaredDomain(tables[i]) in m;
      }
    }
    forall x | x in m'
      ensures exists i :: 0 <= i < n && DeclaredDomain(tables[i]) == x
    {
      if x != d {
        assert x in m;
        var i :| 0 <= i < n - 1 && DeclaredDomain(tables[i]) == x;
      }
    }
  }

  /** HOME_DOMAINS is accepted exactly when it is an array of tables, each with
      only QUALITY and HOME_DOMAIN fields, a known quality and a non-empty
      domain, and no domain is declared twice. */
  lemma ParseDomainsQualitySpec(v: Value)
    ensures ParseDomainsQuality(v).Ok? <==>
              && v.TableArrayValue?
              && (forall i :: 0 <= i < |v.tables| ==> DomainTableAccepted(v.tables[i]))
              && DistinctDomains(v.tables, |v.tables|)
    ensures ParseDomainsQuality(v).Ok? ==>
              forall i :: 0 <= i < |v.tables| ==>
                && DeclaredDomain(v.tables[i]) in ParseDomainsQuality(v).value
                && ParseDomainsQuality(v).value[DeclaredDomain(v.tables[i])] == DeclaredQuality(v.tables[i])
  {
    if v.TableArrayValue? {
      DomainsFoldSpec(v.tables, |v.tables|);
    }
  }

  // ---------------------------------------------------------------- VALIDATORS

  /** The locals of `parseValidators`' loop over one table: the entry's name,
      home domain and quality (with `qualitySet`), `pubKey`, `hist`, and the
      ADDRESS values pushed onto KNOWN_PEERS. */
  datatype Draft = Draft(name: string, homeDomain: string, quality: Option<Quality>,
                         pubKey: string, hist: string, addresses: seq<string>)

  const EmptyDraft := Draft("", "", None, "", "", [])

  /** The locals after the first n fields of one VALIDATORS table. */
  function ScanValidatorFields(fields: seq<Entry>, n: nat): (r: Result<Draft, string>)
    requires n <= |fields|
    decreases n, 0
  {
    if n == 0 then Ok(EmptyDraft) else ValidatorFieldStep(fields, n - 1)
  }

  /** One iteration of the field loop: field i, read into the locals the
      first i fields left. */
  function ValidatorFieldStep(fields: seq<Entry>, i: nat): (r: Result<Draft, string>)
    requires i < |fields|
    decreases i, 1
  {
    match ScanValidatorFields(fields, i)
    case Err(e) => Err(e)
    case Ok(d) =>
      var f := fields[i];
      if f.key == "NAME" then
        match ReadString(f.key, f.value) case Err(e) => Err(e) case Ok(s) => Ok(d.(name := s))
      else if f.key == "HOME_DOMAIN" then
        match ReadString(f.key, f.value) case Err(e) => Err(e) case Ok(s) => Ok(d.(homeDomain := s))
      else if f.key == "QUALITY" then
        match ReadString(f.key, f.value)
        case Err(e) => Err(e)
        case Ok(s) =>
          match ParseQuality(s)
          case Err(e) => Err(e)
          case Ok(q) => Ok(d.(quality := Some(q)))
      else if f.key == "PUBLIC_KEY" then
        match ReadString(f.key, f.value) case Err(e) => Err(e) case Ok(s) => Ok(d.(pubKey := s))
      else if f.key == "ADDRESS" then
        match ReadString(f.key, f.value) case Err(e) => Err(e) case Ok(s) => Ok(d.(addresses := d.addresses + [s]))
      else if f.key == "HISTORY" then
        match ReadString(f.key, f.value) case Err(e) => Err(e) case Ok(s) => Ok(d.(hist := s))
      else Err("malformed VALIDATORS entry, unknown element '" + f.key + "'")
  }

  /** `addHistoryArchive`: archive names are unique. */
  function AddHistoryArchive(history: map<string, ArchiveConfig>, name: string, getCmd: string, putCmd: string, mkdirCmd: string)
    : (r: Result<map<string, ArchiveConfig>, string>)
    ensures r.Ok? <==> name !in history
    ensures r.Ok? ==> r.value.Keys == history.Keys + {name} && r.value[name] == ArchiveConfig(name, getCmd, putCmd, mkdirCmd)
    ensures r.Ok? ==> forall n :: n in history ==> r.value[n] == history[n]
  {
    if name in history then Err("Conflicting archive name " + name)
    else Ok(history[name := ArchiveConfig(name, getCmd, putCmd, mkdirCmd)])
  }

  /** A draft that no configuration state can make acceptable: a missing name,
      key or home domain, a quality given both in the entry and by the home
      domain or by neither, or a HIGH quality without an archive. */
  predicate DraftRejected(d: Draft, domainQuality: map<string, Quality>) {
    || d.name == ""
    || d.pubKey == ""
    || d.homeDomain == ""
    || (d.homeDomain in domainQuality && d.quality.Some?)
    || (d.homeDomain !in domainQuality && d.quality.None?)
    || (d.hist == "" && d.homeDomain in domainQuality && domainQuality[d.homeDomain] == High)
    || (d.hist == "" && d.homeDomain !in domainQuality && d.quality == Some(High))
  }

  /** How an accepted entry relates to the fields it was read from. */
  predicate EntryFollowsDraft(d: Draft, e: ValidatorEntry, domainQuality: map<string, Quality>) {
    && e.name == d.name && e.name != ""
    && e.homeDomain == d.homeDomain && e.homeDomain != ""
    && ToStrKey(e.key) == d.pubKey
    && (e.hasHistory <==> d.hist != "")
    && (e.quality == High ==> e.hasHistory)
    && (d.homeDomain in domainQuality ==> d.quality.None? && e.quality == domainQuality[d.homeDomain])
    && (d.homeDomain !in domainQuality ==> d.quality == Some(e.quality))
  }

  /** The checks after the field loop of one VALIDATORS entry, then
      `addValidatorName`, the key decoding and `addHistoryArchive`. */
  function FinishEntry(env: Env, d: Draft, domainQuality: map<string, Quality>): (r: Result<(ValidatorEntry, Env), string>)
    ensures DraftRejected(d, domainQuality) ==> r.Err?
    ensures r.Ok? ==> EntryFollowsDraft(d, r.value.0, domainQuality)
    ensures r.Ok? ==> AddName(env.names, d.pubKey, d.name) == Ok(r.value.1.names)
    ensures r.Ok? ==> r.value.1.knownPeers == env.knownPeers
    ensures r.Ok? ==> r.value.1.history.Keys == env.history.Keys + (if d.hist != "" then {d.name} else {})
  {
    if d.name == "" then Err("malformed VALIDATORS entry: missing 'NAME'")
    else if d.pubKey == "" || d.homeDomain == "" then Err("malformed VALIDATORS entry " + d.name)
    else if d.homeDomain in domainQuality && d.quality.Some? then
      Err("malformed VALIDATORS entry " + d.name + ": quality already defined in home domain " + d.homeDomain)
    else if d.homeDomain !in domainQuality && d.quality.None? then
      Err("malformed VALIDATORS entry " + d.name + " (missing quality)")
    else
      var quality := if d.homeDomain in domainQuality then domainQuality[d.homeDomain] else d.quality.value;
      match AddName(env.names, d.pubKey, d.name)
      case Err(e) => Err(e)
      case Ok(names') =>
        match FromStrKey(d.pubKey)
        case None => Err(MalformedKey)
        case Some(k) =>
          var hasHistory := d.hist != "";
          var history := if hasHistory then AddHistoryArchive(env.history, d.name, d.hist, "", "") else Ok(env.history);
          match history
          case Err(e) => Err(e)
          case Ok(h) =>
            if quality == High && d.hist == "" then
              Err("malformed VALIDATORS entry " + d.name + " (high quality must have an archive)")
            else Ok((ValidatorEntry(d.name, k, d.homeDomain, quality, hasHistory), Env(names', env.knownPeers, h)))
  }

  /** The draft one VALIDATORS table yields, when its field loop succeeds. */
  predicate TableScans(t: seq<Entry>) {
    ScanValidatorFields(t, |t|).Ok?
  }

  function DraftOf(t: seq<Entry>): Draft
    requires TableScans(t)
  {
    ScanValidatorFields(t, |t|).value
  }

  /** One iteration of the outer loop: the field loop (whose ADDRESS values
      go to KNOWN_PEERS), then the checks of `FinishEntry`. */
  function AddValidator(env: Env, t: seq<Entry>, domainQuality: map<string, Quality>): (r: Result<(ValidatorEntry, Env), string>)
    ensures (!TableScans(t) || DraftRejected(DraftOf(t), domainQuality)) ==> r.Err?
    ensures r.Ok? ==> TableScans(t) && EntryFollowsDraft(DraftOf(t), r.value.0, domainQuality)
    ensures r.Ok? ==> AddName(env.names, DraftOf(t).pubKey, DraftOf(t).name) == Ok(r.value.1.names)
    ensures r.Ok? ==> r.value.1.history.Keys == env.history.Keys + (if DraftOf(t).hist != "" then {DraftOf(t).name} else {})
  {
    match ScanValidatorFields(t, |t|)
    case Err(e) => Err(e)
    case Ok(d) => FinishEntry(env.(knownPeers := env.knownPeers + d.addresses), d, domainQuality)
  }

  /** The entries and the state after the first n VALIDATORS tables. */
  function ValidatorsFold(env: Env, tables: seq<seq<Entry>>, n: nat, domainQuality: map<string, Quality>)
    : (r: Result<(seq<ValidatorEntry>, Env), string>)
    requires n <= |tables|
    ensures r.Ok? ==> |r.value.0| == n
    decreases n, 0
  {
    if n == 0 then Ok(([], env)) else ValidatorsStep(env, tables, n - 1, domainQuality)
  }

  /** One iteration of the loop over the tables: table i, processed in the
      state the first i tables left. */
  function ValidatorsStep(env: Env, tables: seq<seq<Entry>>, i: nat, domainQuality: map<string, Quality>)
    : (r: Result<(seq<ValidatorEntry>, Env), string>)
    requires i < |tables|
    ensures r.Ok? ==> |r.value.0| == i + 1
    decreases i, 1
  {
    match ValidatorsFold(env, tables, i, domainQuality)
    case Err(e) => Err(e)
    case Ok((vs, env1)) =>
      match AddValidator(env1, tables[i], domainQuality)
      case Err(e) => Err(e)
      case Ok((entry, env2)) => Ok((vs + [entry], env2))
  }

  /** `parseValidators`: the entries, and the configuration state afterwards. */
  function ParseValidators(env: Env, v: Value, domainQuality: map<string, Quality>): (r: Result<(seq<ValidatorEntry>, Env), string>)
    ensures !v.TableArrayValue? ==> r == Err("malformed VALIDATORS")
  {
    if !v.TableArrayValue? then Err("malformed VALIDATORS")
    else ValidatorsFold(env, v.tables, |v.tables|, domainQuality)
  }

  lemma {:induction false} ValidatorsFoldErrorPersists(env: Env, tables: seq<seq<Entry>>, n: nat, m: nat, dq: map<string, Quality>)
    requires n <= m <= |tables|
    requires ValidatorsFold(env, tables, n, dq).Err?
    ensures ValidatorsFold(env, tables, m, dq) == ValidatorsFold(env, tables, n, dq)
    decreases m
  {
    if m > n {
      ValidatorsFoldErrorPersists(env, tables, n, m - 1, dq);
      assert ValidatorsFold(env, tables, m, dq) == ValidatorsStep(env, tables, m - 1, dq);
    }
  }

  /** The fold after n tables in terms of the fold after n - 1 and table n - 1. */
  lemma ValidatorsFoldUnfold(env: Env, tables: seq<seq<Entry>>, n: nat, dq: map<string, Quality>)
    requires 0 < n <= |tables|
    requires ValidatorsFold(env, tables, n - 1, dq).Ok?
    ensures var (vs, env1) := ValidatorsFold(env, tables, n - 1, dq).value;
            var step := AddValidator(env1, tables[n - 1], dq);
            && (step.Err? ==> ValidatorsFold(env, tables, n, dq) == Err(step.error))
            && (step.Ok? ==> ValidatorsFold(env, tables, n, dq) == Ok((vs + [step.value.0], step.value.1)))
  {
    assert ValidatorsFold(env, tables, n, dq) == ValidatorsStep(env, tables, n - 1, dq);
  }

  /** What one accepted table adds to the fold, stated without the step
      function: the entry follows the table's fields and its name is appended
      to the registry. */
  lemma ValidatorsFoldGrows(env: Env, tables: seq<seq<Entry>>, n: nat, dq: map<string, Quality>)
    requires 0 < n <= |tables|
    requires ValidatorsFold(env, tables, n, dq).Ok?
    ensures ValidatorsFold(env, tables, n - 1, dq).Ok? && TableScans(tables[n - 1])
    ensures var (vs0, env1) := ValidatorsFold(env, tables, n - 1, dq).value;
            var (vs, env2) := ValidatorsFold(env, tables, n, dq).value;
            var d := DraftOf(tables[n - 1]);
            && vs == vs0 + [vs[n - 1]]
            && EntryFollowsDraft(d, vs[n - 1], dq)
            && AddName(env1.names, d.pubKey, d.name) == Ok(env2.names)
            && env2.history.Keys == env1.history.Keys + (if d.hist != "" then {d.name} else {})
  {
    assert ValidatorsFold(env, tables, n, dq) == ValidatorsStep(env, tables, n - 1, dq);
  }

  /** The registry entries the accepted validators contribute, in order. */
  function NamesOf(vs: seq<ValidatorEntry>): seq<NameEntry> {
    if vs == [] then [] else NamesOf(vs[..|vs| - 1]) + [NameEntry(ToStrKey(vs[|vs| - 1].key), vs[|vs| - 1].name)]
  }

  lemma {:induction false} ScanValidatorErrorPersists(fields: seq<Entry>, n: nat, m: nat)
    requires n <= m <= |fields|
    requires ScanValidatorFields(fields, n).Err?
    ensures ScanValidatorFields(fields, m) == ScanValidatorFields(fields, n)
    decreases m
  {
    if m > n {
      ScanValidatorErrorPersists(fields, n, m - 1);
      assert ScanValidatorFields(fields, m) == ValidatorFieldStep(fields, m - 1);
    }
  }

  lemma AddValidatorUnfold(env: Env, t: seq<Entry>, dq: map<string, Quality>)
    requires TableScans(t)
    ensures AddValidator(env, t, dq) == FinishEntry(env.(knownPeers := env.knownPeers + DraftOf(t).addresses), DraftOf(t), dq)
  {
  }

  /** An entry that fails is the error of the whole VALIDATORS parse. */
  lemma EntryFails(env: Env, tables: seq<seq<Entry>>, i: nat, dq: map<string, Quality>)
    requires i < |tables|
    requires ValidatorsFold(env, tables, i, dq).Ok?
    requires AddValidator(ValidatorsFold(env, tables, i, dq).value.1, tables[i], dq).Err?
    ensures ValidatorsFold(env, tables, |tables|, dq) ==
              Err(AddValidator(ValidatorsFold(env, tables, i, dq).value.1, tables[i], dq).error)
  {
    ValidatorsFoldUnfold(env, tables, i + 1, dq);
    ValidatorsFoldErrorPersists(env, tables, i + 1, |tables|, dq);
  }

  /** Every accepted entry comes from its own table, in order, and obeys the
      entry rules: non-empty name, key and home domain, exactly one quality
      source, an archive exactly when HISTORY is set, and an archive for every
      HIGH entry. */
  lemma {:induction false} ValidatorsFoldEntries(env: Env, tables: seq<seq<Entry>>, n: nat, dq: map<string, Quality>)
    requires n <= |tables|
    requires ValidatorsFold(env, tables, n, dq).Ok?
    ensures var vs := ValidatorsFold(env, tables, n, dq).value.0;
            forall i :: 0 <= i < n ==> TableScans(tables[i]) && EntryFollowsDraft(DraftOf(tables[i]), vs[i], dq)
  {
    if n > 0 {
      ValidatorsFoldGrows(env, tables, n, dq);
      ValidatorsFoldEntries(env, tables, n - 1, dq);
    }
  }

  /** The registry gains exactly the (key, name) pairs of the accepted
      entries, in order, and stays well formed. */
  lemma {:induction false} ValidatorsFoldNames(env: Env, tables: seq<seq<Entry>>, n: nat, dq: map<string, Quality>)
    requires n <= |tables|
    requires ValidatorsFold(env, tables, n, dq).Ok?
    ensures var (vs, env') := ValidatorsFold(env, tables, n, dq).value;
            && env'.names == env.names + NamesOf(vs)
            && (WellFormed(env.names) ==> WellFormed(env'.names))
  {
    if n > 0 {
      ValidatorsFoldGrows(env, tables, n, dq);
      ValidatorsFoldNames(env, tables, n - 1, dq);
      var (vs, env1) := ValidatorsFold(env, tables, n - 1, dq).value;
      var (vs', env2) := ValidatorsFold(env, tables, n, dq).value;
      var d := DraftOf(tables[n - 1]);
      assert vs'[..|vs|] == vs;
      assert NamesOf(vs') == NamesOf(vs) + [NameEntry(d.pubKey, d.name)];
      if WellFormed(env.names) {
        AddNameSpec(env1.names, d.pubKey, d.name);
      }
    }
  }

  /** A table whose field loop fails, or whose fields no state can accept,
      makes the whole VALIDATORS list fail. */
  lemma ValidatorsRejected(env: Env, v: Value, dq: map<string, Quality>, i: nat)
    requires v.TableArrayValue? && i < |v.tables|
    requires !TableScans(v.tables[i]) || DraftRejected(DraftOf(v.tables[i]), dq)
    ensures ParseValidators(env, v, dq).Err?
  {
    if ValidatorsFold(env, v.tables, i, dq).Err? {
      ValidatorsFoldErrorPersists(env, v.tables, i, |v.tables|, dq);
    } else {
      ValidatorsFoldUnfold(env, v.tables, i + 1, dq);
      ValidatorsFoldErrorPersists(env, v.tables, i + 1, |v.tables|, dq);
    }
  }

  /** What the configuration state must allow for a draft to be accepted:
      the entry rules, a key `fromStrKey` decodes, a name and key that
      `addValidatorName` takes, and a new archive name when HISTORY is set. */
  predicate DraftAccepted(env: Env, d: Draft, domainQuality: map<string, Quality>) {
    && !DraftRejected(d, domainQuality)
    && ValidStrKey(d.pubKey)
    && AddName(env.names, d.pubKey, d.name).Ok?
    && (d.hist != "" ==> d.name !in env.history)
  }

  /** The checks after the field loop accept a draft exactly when the state
      allows it. */
  lemma FinishEntryIff(env: Env, d: Draft, dq: map<string, Quality>)
    ensures FinishEntry(env, d, dq).Ok? <==> DraftAccepted(env, d, dq)
  {
  }

  /** One VALIDATORS table is accepted exactly when its field loop succeeds
      and the state allows the draft it yields. */
  lemma AddValidatorIff(env: Env, t: seq<Entry>, dq: map<string, Quality>)
    ensures AddValidator(env, t, dq).Ok? <==> TableScans(t) && DraftAccepted(env, DraftOf(t), dq)
  {
    if TableScans(t) {
      AddValidatorUnfold(env, t, dq);
      FinishEntryIff(env.(knownPeers := env.knownPeers + DraftOf(t).addresses), DraftOf(t), dq);
    }
  }

  /** Every one of the first n tables has a successful field loop. */
  predicate AllScan(tables: seq<seq<Entry>>, n: nat)
    requires n <= |tables|
  {
    forall i :: 0 <= i < n ==> TableScans(tables[i])
  }

  /** The (key, name) pairs the first n tables declare, in order. */
  function DeclaredNames(tables: seq<seq<Entry>>, n: nat): (r: seq<NameEntry>)
    requires n <= |tables| && AllScan(tables, n)
    ensures |r| == n
  {
    if n == 0 then [] else DeclaredNames(tables, n - 1) + [NameEntry(DraftOf(tables[n - 1]).pubKey, DraftOf(tables[n - 1]).name)]
  }

  /** The names of those of the first n tables that set HISTORY. */
  function ArchivedNames(tables: seq<seq<Entry>>, n: nat): set<string>
    requires n <= |tables|
  {
    if n == 0 then {}
    else
      var t := tables[n - 1];
      ArchivedNames(tables, n - 1) + (if TableScans(t) && DraftOf(t).hist != "" then {DraftOf(t).name} else {})
  }

  /** The registry pairs of entries that follow the first n tables are the
      pairs those tables declare. */
  lemma {:induction false} NamesOfDeclared(vs: seq<ValidatorEntry>, tables: seq<seq<Entry>>, n: nat, dq: map<string, Quality>)
    requires n <= |tables| && |vs| == n
    requires forall i :: 0 <= i < n ==> TableScans(tables[i]) && EntryFollowsDraft(DraftOf(tables[i]), vs[i], dq)
    ensures AllScan(tables, n) && NamesOf(vs) == DeclaredNames(tables, n)
  {
    if n > 0 {
      NamesOfDeclared(vs[..n - 1], tables, n - 1, dq);
    }
  }

  /** After n accepted tables the registry holds the pairs they declare after
      the old ones. */
  lemma ValidatorsFoldRegistry(env: Env, tables: seq<seq<Entry>>, n: nat, dq: map<string, Quality>)
    requires n <= |tables|
    requires ValidatorsFold(env, tables, n, dq).Ok?
    ensures AllScan(tables, n)
    ensures ValidatorsFold(env, tables, n, dq).value.1.names == env.names + DeclaredNames(tables, n)
  {
    ValidatorsFoldNames(env, tables, n, dq);
    ValidatorsFoldEntries(env, tables, n, dq);
    NamesOfDeclared(ValidatorsFold(env, tables, n, dq).value.0, tables, n, dq);
  }

  /** One more accepted table adds its name to HISTORY exactly when it sets
      HISTORY. */
  lemma ValidatorsFoldHistoryStep(env: Env, tables: seq<seq<Entry>>, n: nat, dq: map<string, Quality>)
    requires 0 < n <= |tables|
    requires ValidatorsFold(env, tables, n, dq).Ok?
    ensures ValidatorsFold(env, tables, n - 1, dq).Ok? && TableScans(tables[n - 1])
    ensures ValidatorsFold(env, tables, n, dq).value.1.history.Keys ==
              ValidatorsFold(env, tables, n - 1, dq).value.1.history.Keys +
              (if DraftOf(tables[n - 1]).hist != "" then {DraftOf(tables[n - 1]).name} else {})
  {
    ValidatorsFoldGrows(env, tables, n, dq);
  }

  lemma UnionStep(h1: set<string>, h0: set<string>, e: set<string>, a0: set<string>, a1: set<string>, x: set<string>)
    requires h1 == h0 + x && h0 == e + a0 && a1 == a0 + x
    ensures h1 == e + a1
  {
  }

  /** After n accepted tables HISTORY holds, besides the old archives, those
      of the tables that set HISTORY. */
  lemma {:induction false} ValidatorsFoldHistory(env: Env, tables: seq<seq<Entry>>, n: nat, dq: map<string, Quality>)
    requires n <= |tables|
    requires ValidatorsFold(env, tables, n, dq).Ok?
    ensures ValidatorsFold(env, tables, n, dq).value.1.history.Keys == env.history.Keys + ArchivedNames(tables, n)
  {
    if n > 0 {
      ValidatorsFoldHistoryStep(env, tables, n, dq);
      ValidatorsFoldHistory(env, tables, n - 1, dq);
      var d := DraftOf(tables[n - 1]);
      UnionStep(ValidatorsFold(env, tables, n, dq).value.1.history.Keys,
                ValidatorsFold(env, tables, n - 1, dq).value.1.history.Keys,
                env.history.Keys, ArchivedNames(tables, n - 1), ArchivedNames(tables, n),
                if d.hist != "" then {d.name} else {});
    }
  }

  /** No entry of the registry has this name or this key. */
  predicate Fresh(names: seq<NameEntry>, key: string, name: string) {
    forall k :: 0 <= k < |names| ==> names[k].name != name && names[k].key != key
  }

  lemma FreshSplit(a: seq<NameEntry>, b: seq<NameEntry>, key: string, name: string)
    ensures Fresh(a + b, key, name) <==> Fresh(a, key, name) && Fresh(b, key, name)
  {
    assert forall k :: 0 <= k < |a| ==> (a + b)[k] == a[k];
    assert forall k :: 0 <= k < |b| ==> (a + b)[|a| + k] == b[k];
    assert forall k :: |a| <= k < |a + b| ==> (a + b)[k] == b[k - |a|];
  }

  /** The conditions on table i, stated on the input alone: the field loops
      of tables 0 to i succeed, table i's draft keeps the entry rules and has
      a valid key, its name and key are new to the registry and to the pairs
      the tables before it declare, and its archive name is new to HISTORY. */
  predicate TableAccepted(env: Env, tables: seq<seq<Entry>>, i: nat, dq: map<string, Quality>)
    requires i < |tables|
  {
    && AllScan(tables, i + 1)
    && var d := DraftOf(tables[i]);
    && !DraftRejected(d, dq)
    && ValidStrKey(d.pubKey)
    && Fresh(env.names + DeclaredNames(tables, i), d.pubKey, d.name)
    && (d.hist != "" ==> d.name !in env.history)
  }

  /** A name that none of the first i tables declares is not archived by them. */
  lemma {:induction false} FreshNotArchived(names: seq<NameEntry>, tables: seq<seq<Entry>>, i: nat, key: string, x: string)
    requires i <= |tables| && AllScan(tables, i)
    requires Fresh(names + DeclaredNames(tables, i), key, x)
    ensures x !in ArchivedNames(tables, i)
  {
    if i > 0 {
      var d := DraftOf(tables[i - 1]);
      var prev := names + DeclaredNames(tables, i - 1);
      assert names + DeclaredNames(tables, i) == prev + [NameEntry(d.pubKey, d.name)];
      FreshSplit(prev, [NameEntry(d.pubKey, d.name)], key, x);
      assert [NameEntry(d.pubKey, d.name)][0].name == d.name;
      FreshNotArchived(names, tables, i - 1, key, x);
    }
  }

  /** In the state the first i tables leave, table i's draft is acceptable
      exactly when the table meets the input conditions. */
  lemma DraftAcceptedAfter(env: Env, tables: seq<seq<Entry>>, i: nat, dq: map<string, Quality>)
    requires i < |tables| && WellFormed(env.names)
    requires ValidatorsFold(env, tables, i, dq).Ok? && TableScans(tables[i])
    ensures DraftAccepted(ValidatorsFold(env, tables, i, dq).value.1, DraftOf(tables[i]), dq) <==>
              TableAccepted(env, tables, i, dq)
  {
    var env1 := ValidatorsFold(env, tables, i, dq).value.1;
    var d := DraftOf(tables[i]);
    ValidatorsFoldRegistry(env, tables, i, dq);
    ValidatorsFoldHistory(env, tables, i, dq);
    ValidatorsFoldNames(env, tables, i, dq);
    if !DraftRejected(d, dq) && ValidStrKey(d.pubKey) {
      AddNameSpec(env1.names, d.pubKey, d.name);
      assert AddName(env1.names, d.pubKey, d.name).Ok? <==> Fresh(env1.names, d.pubKey, d.name);
      if Fresh(env1.names, d.pubKey, d.name) {
        FreshNotArchived(env.names, tables, i, d.pubKey, d.name);
      }
    }
  }

  /** Given the first n - 1 tables accepted, the first n are accepted exactly
      when table n - 1 meets the input conditions. */
  lemma AcceptedStep(env: Env, tables: seq<seq<Entry>>, n: nat, dq: map<string, Quality>)
    requires 0 < n <= |tables| && WellFormed(env.names)
    requires ValidatorsFold(env, tables, n - 1, dq).Ok?
    ensures ValidatorsFold(env, tables, n, dq).Ok? <==> TableAccepted(env, tables, n - 1, dq)
  {
    FoldOkStep(env, tables, n, dq);
    AddValidatorIff(ValidatorsFold(env, tables, n - 1, dq).value.1, tables[n - 1], dq);
    if TableScans(tables[n - 1]) {
      DraftAcceptedAfter(env, tables, n - 1, dq);
    } else {
      assert !AllScan(tables, n);
    }
  }

  lemma FoldOkStep(env: Env, tables: seq<seq<Entry>>, n: nat, dq: map<string, Quality>)
    requires 0 < n <= |tables|
    requires ValidatorsFold(env, tables, n - 1, dq).Ok?
    ensures ValidatorsFold(env, tables, n, dq).Ok? <==>
              AddValidator(ValidatorsFold(env, tables, n - 1, dq).value.1, tables[n - 1], dq).Ok?
  {
    ValidatorsFoldUnfold(env, tables, n, dq);
  }

  /** The first n tables are accepted exactly when each of them meets the
      input conditions; each then gives one entry. */
  lemma {:induction false} ValidatorsFoldAcceptedIff(env: Env, tables: seq<seq<Entry>>, n: nat, dq: map<string, Quality>)
    requires n <= |tables| && WellFormed(env.names)
    ensures ValidatorsFold(env, tables, n, dq).Ok? <==> forall i :: 0 <= i < n ==> TableAccepted(env, tables, i, dq)
  {
    if n > 0 {
      ValidatorsFoldAcceptedIff(env, tables, n - 1, dq);
      assert (forall i :: 0 <= i < n ==> TableAccepted(env, tables, i, dq)) <==>
             (forall i :: 0 <= i < n - 1 ==> TableAccepted(env, tables, i, dq)) && TableAccepted(env, tables, n - 1, dq);
      if ValidatorsFold(env, tables, n - 1, dq).Err? {
        ValidatorsFoldErrorPersists(env, tables, n - 1, n, dq);
      } else {
        AcceptedStep(env, tables, n, dq);
      }
    }
  }

  /** VALIDATORS is accepted exactly when it is an array of tables each of
      which meets the input conditions, and then it gives one entry per table,
      each following its table's fields. */
  lemma ParseValidatorsAcceptedIff(env: Env, v: Value, dq: map<string, Quality>)
    requires WellFormed(env.names)
    ensures ParseValidators(env, v, dq).Ok? <==>
              v.TableArrayValue? && forall i :: 0 <= i < |v.tables| ==> TableAccepted(env, v.tables, i, dq)
    ensures ParseValidators(env, v, dq).Ok? ==>
              var vs := ParseValidators(env, v, dq).value.0;
              && |vs| == |v.tables|
              && forall i :: 0 <= i < |vs| ==> TableScans(v.tables[i]) && EntryFollowsDraft(DraftOf(v.tables[i]), vs[i], dq)
  {
    if v.TableArrayValue? {
      ValidatorsFoldAcceptedIff(env, v.tables, |v.tables|, dq);
      if ParseValidators(env, v, dq).Ok? {
        ValidatorsFoldEntries(env, v.tables, |v.tables|, dq);
      }
    }
  }

  /** `addSelfToValidators`: appends the entry "self" for the node's own key
      with the quality of NODE_HOME_DOMAIN, which must have one. */
  function AddSelfToValidators(validators: seq<ValidatorEntry>, domainQuality: map<string, Quality>,
                               nodeHomeDomain: string, selfKey: PublicKey): (r: Result<seq<ValidatorEntry>, string>)
    ensures r.Ok? <==> nodeHomeDomain in domainQuality
    ensures r.Ok? ==> |r.value| == |validators| + 1 && r.value[..|validators|] == validators
    ensures r.Ok? ==> var self := r.value[|validators|];
                      self.key == selfKey && self.name == "self" && self.homeDomain == nodeHomeDomain &&
                      self.quality == domainQuality[nodeHomeDomain] && !self.hasHistory
  {
    if nodeHomeDomain in domainQuality then
      Ok(validators + [ValidatorEntry("self", selfKey, nodeHomeDomain, domainQuality[nodeHomeDomain], false)])
    else Err("Must specify a matching HOME_DOMAINS for self")
  }
}
