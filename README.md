# stellar-core quorum configuration, modelled in Dafny

This project models how stellar-core's `Config` turns the node's configuration
into the SCP quorum set it will trust, and what it refuses. The model covers:

- **Threshold arithmetic.** `computeDefaultThreshold` uses the simple-majority
  rule `n - (n-1)/2` or the Byzantine rule `n - (n-1)/3`. The manual
  quorum-set parser rounds `THRESHOLD_PERCENT` up.
- **`loadQset`**, the parser of the operator-written `[QUORUM_SET]` group. It
  handles nesting of at most three levels, `THRESHOLD_PERCENT`, `VALIDATORS`
  arrays and sub-groups, and errors that are re-raised with the name of the
  entry that failed.
- **Validator qualities and domains.** This covers `parseQuality` with
  `toString(ValidatorQuality)`, `parseDomainsQuality` (`[[HOME_DOMAINS]]`),
  `parseValidators` (`[[VALIDATORS]]`) and `addSelfToValidators`.
- **The identity registry VALIDATOR_NAMES.** This covers `addValidatorName`,
  `parseNodeID`, `expandNodeID` (`$name` and `@prefix` aliases),
  `resolveNodeID` and `toShortString`.
- **The automatic quorum-set generator.** `generateQuorumSet` sorts the
  validators by quality, then by home domain. `generateQuorumSetHelper` then
  builds one inner set per home domain and one nested level per quality tier.
- **`validateConfig`.** It checks FAILURE_SAFETY, UNSAFE_QUORUM and the root
  threshold against the default threshold and the smallest v-blocking set.

Layout, one module per file:

| file | module | what it holds |
|---|---|---|
| `wrappers.dfy` | `Wrappers` | `Option`, `Result`, and `Outcome` for operations that only succeed or throw |
| `keys.dfy` | `Keys` | public keys and their strkey text form |
| `toml.dfy` | `Toml` | the parsed TOML values the parsers read, and the `readString`/`readStringArray` checks |
| `quorum_set.dfy` | `QuorumSets` | `SCPQuorumSet` as a recursive datatype, with its leaves, depth and threshold ranges |
| `threshold.dfy` | `Threshold` | `computeDefaultThreshold` and the percentage ceiling |
| `quality.dfy` | `Qualities` | `ValidatorQuality` and its names |
| `registry.dfy` | `Registry` | VALIDATOR_NAMES and the lookups on it |
| `manual_qset.dfy` | `ManualQuorumSet` | `loadQset` as functions, plus its lemmas |
| `validators.dfy` | `Validators` | HOME_DOMAINS and VALIDATORS parsing as functions, plus their lemmas |
| `ordering.dfy` | `ValidatorOrder` | the sort comparator, and the in-place sort |
| `generator.dfy` | `Generator` | the generator's definition, its lemmas, and its loops as methods |
| `config.dfy` | `Configuration` | class `Config` holding the state the source mutates, its methods proved against the functions above, and `validateConfig` |

How the source's state and loops appear in the model:

- **Mutated state.** The state `Config` updates in place lives in the fields
  of class `Configuration.Config`: VALIDATOR_NAMES, KNOWN_PEERS, HISTORY,
  FAILURE_SAFETY, UNSAFE_QUORUM and QUORUM_SET.
- **Loops.** Each loop of the source is a method with a loop. Its invariant
  says the state so far equals a prefix fold, a function over the first `i`
  items. Each method's `ensures` ties its result and the new state to that
  function.
- **Errors.** A thrown `std::invalid_argument` becomes an `Err` or `Fail`
  value that carries the message the source builds.

## Model

| member | source | states |
|---|---|---|
| Keys.FromStrKey | src/main/Config.cpp:1304-1312 | decoding a strkey succeeds exactly for well-formed text, and re-encoding the key gives the text back |
| Keys.FromToStrKey | src/main/Config.cpp:1272-1275 | every key's text form decodes to the same key |
| Toml.ReadString | src/main/Config.cpp:169-177 | succeeds exactly on a string value and returns it |
| Toml.ReadStringArray | src/main/Config.cpp:179-198 | succeeds exactly on an array of strings and returns them in order |
| Qualities.Rank | src/main/Config.cpp:310-316 | the enum value is the quality's index in kQualities: kQualities[rank] is the quality's name, so LOW < MEDIUM < HIGH |
| Qualities.QualityName | src/main/Config.cpp:312-316 | the name is one of "LOW", "MEDIUM", "HIGH" |
| Qualities.ParseQuality | src/main/Config.cpp:318-335 | accepts exactly "LOW", "MEDIUM" and "HIGH"; on success the parsed quality's name is the input; otherwise fails with "Unknown QUALITY <q>" |
| Qualities.ParseQualityName | src/main/Config.cpp:310-335 | parseQuality inverts toString for every quality |
| Threshold.SimpleMajority | src/main/Config.cpp:59-64 | n - t == (n-1)/2, 1 <= t <= n, and t is the least strict majority (2t > n >= 2(t-1)) |
| Threshold.Byzantine | src/main/Config.cpp:65-70 | n - t == (n-1)/3, 1 <= t <= n, and the tolerated failures n - t are under a third of n |
| Threshold.ComputeDefaultThreshold | src/main/Config.cpp:48-72 | 0 exactly for an empty set; otherwise 1 <= t <= n, simple majority for a flat set when asked, the Byzantine rule in every other case |
| Threshold.PercentThreshold | src/main/Config.cpp:283-288 | the threshold is at least 1 |
| Threshold.PercentThresholdIsCeiling | src/main/Config.cpp:283-288 | 1 + (n*p - 1)/100 is the ceiling of n*p/100, lies in [1, n], and is n when p = 100 |
| QuorumSets.AllNodes | src/main/Config.cpp:1118-1120 | forAllNodes collects exactly the leaf keys of the tree |
| QuorumSets.LeavesOfAppend | src/main/Config.cpp:1118-1120 | the leaves of concatenated inner sets are the concatenation of their leaves |
| Registry.FindFirst | src/main/Config.cpp:1339-1340 | std::find_if: the first entry matching `$name` by name or `@prefix` by key prefix, or none |
| Registry.ExpandNodeID | src/main/Config.cpp:1315-1349 | a string that is not an alias comes back unchanged; an alias gives the key of the first matching entry, or "" when none matches |
| Registry.ResolveNodeID | src/main/Config.cpp:1295-1313 | succeeds exactly when the expansion is a valid strkey, and returns the key it encodes |
| Registry.FindKey | src/main/Config.cpp:1213 | the position of the entry for a key, or none when the key is not named |
| Registry.ToShortString | src/main/Config.cpp:1269-1278 | the registered name of the key, else the first 5 characters of its strkey |
| Registry.AddName | src/main/Config.cpp:1202-1217 | on success appends exactly (key, name), which was not yet named; "name already used" when `$name` already resolves |
| Registry.ResolveRegisteredName | src/main/Config.cpp:1329-1343 | in a well-formed registry every registered name resolves to its own key |
| Registry.ResolveNameIff | src/main/Config.cpp:1329-1343 | `$name` resolves exactly when some entry carries that name |
| Registry.AddNameSpec | src/main/Config.cpp:1202-1217 | addValidatorName fails exactly when the name or the key is already registered, and keeps the registry well formed |
| Registry.ResolvePlainKey | src/main/Config.cpp:1315-1325 | a plain strkey resolves to itself, whatever the registry |
| Registry.ReadWordSpec | src/main/Config.cpp:1244-1262 | `iss >> word`: the word is the text from the first non-space position at or after i up to the next space or the end; it holds no space, only spaces precede it, the position after it is the end or a space, and it is empty exactly when only spaces remain |
| Registry.ParseNodeID | src/main/Config.cpp:1219-1267 | short input is "invalid key"; a `$name` must resolve, and the registry is unchanged; otherwise the registry gains at most one entry |
| Registry.ParseNodeIDSpec | src/main/Config.cpp:1241-1265 | for "KEY [NAME]" in a well-formed registry: a malformed first word is the strkey error; the call succeeds exactly when the first word is a valid key and, if a name follows, neither the name nor the key is registered; the result is the first word's key; the registry is unchanged without a name and gains exactly (KEY, NAME) with one, and stays well formed |
| Registry.DeclaredNameResolves | src/main/Config.cpp:1219-1267 | "KEY name" for a fresh key and name yields the key, registers exactly (key, name), and `$name` then resolves to the key |
| ManualQuorumSet.ParseNodeIDs | src/main/Config.cpp:252-258 | one key per VALIDATORS string, in order |
| ManualQuorumSet.ParseNodeIDsStep | src/main/Config.cpp:254-258 | one more string succeeds exactly when the earlier ones did and `parseNodeID` of it succeeds under the registry they left; its key is appended and its registry carried on |
| ManualQuorumSet.ParseNodeIDsGrows | src/main/Config.cpp:254-258 | the keys of the first m strings start the keys of the first n >= m |
| ManualQuorumSet.ParseNodeIDsKey | src/main/Config.cpp:254-258 | on success the k-th key is what `parseNodeID` gives for the k-th string under the registry the first k strings left, and that parse succeeded |
| ManualQuorumSet.ParseNodeIDsFirstError | src/main/Config.cpp:254-258 | on failure some string failed after all earlier ones parsed, and its error is the one reported |
| ManualQuorumSet.ParseNodeIDsWellFormed | src/main/Config.cpp:254-258 | parsing keeps the registry well formed |
| ManualQuorumSet.PlainKeysParsed | src/main/Config.cpp:252-258 | an array of bare strkeys parses to exactly those keys, in order, with the registry unchanged |
| ManualQuorumSet.LoadQset | src/main/Config.cpp:218-295 | a non-table is "invalid entry in quorum set definition", level > 2 is "too many levels in quorum set"; an accepted group has at least one child and a threshold of at least 1 |
| ManualQuorumSet.LoadEntries | src/main/Config.cpp:232-281 | the loop's percentage stays within 1..100 |
| ManualQuorumSet.LoadEntriesPercent | src/main/Config.cpp:232-249 | the percentage used is that of the last THRESHOLD_PERCENT entry, or 67 |
| ManualQuorumSet.LoadQsetThreshold | src/main/Config.cpp:283-288 | threshold = ceiling(n * p / 100), with 1 <= threshold <= n |
| ManualQuorumSet.LoadQsetShape | src/main/Config.cpp:227-230 | every accepted tree is at most three levels deep, and every node's threshold lies between 1 and its child count |
| ManualQuorumSet.NonTableSubEntryRejected | src/main/Config.cpp:264-278 | a sub-entry that is not a table fails with "invalid quorum set, should be a group while parsing '<key>'" |
| ManualQuorumSet.NestedErrorWrapped | src/main/Config.cpp:262-279 | a nested failure is re-raised with " while parsing '<key>'" appended |
| ManualQuorumSet.BadPercentRejected | src/main/Config.cpp:237-247 | a THRESHOLD_PERCENT that is not an integer in 1..100 fails the whole group with "invalid THRESHOLD_PERCENT" |
| ManualQuorumSet.NoMembersEntries | src/main/Config.cpp:235-258 | over entries that are only THRESHOLD_PERCENT or empty VALIDATORS arrays, the loop fails exactly when some percentage is bad, with "invalid THRESHOLD_PERCENT", and otherwise collects nothing and leaves the registry alone |
| ManualQuorumSet.EmptyGroupRejected | src/main/Config.cpp:235-294 | any group with no VALIDATORS strings and no sub-groups (empty, `{THRESHOLD_PERCENT=50}`, `{VALIDATORS=[]}`, ...) is rejected: "invalid THRESHOLD_PERCENT" if a percentage is bad, else "invalid quorum set definition" |
| ManualQuorumSet.LoadEntriesCounts | src/main/Config.cpp:235-280 | the loop pushes one inner set per sub-group entry and one validator per VALIDATORS string |
| ManualQuorumSet.LoadEntriesGrows | src/main/Config.cpp:235-280 | the loop only appends: validators and inner sets after m entries are prefixes of those after n >= m |
| ManualQuorumSet.LoadEntriesSubGroup | src/main/Config.cpp:260-279 | the inner set of sub-group entry j sits after those of earlier entries and is that table parsed one level down with the registry the earlier entries left |
| ManualQuorumSet.LoadEntriesValidatorsAt | src/main/Config.cpp:250-259 | the keys of VALIDATORS entry j fill the positions right after the strings of earlier arrays, and are that array parsed with the registry the earlier entries left |
| ManualQuorumSet.LoadQsetInnerSet | src/main/Config.cpp:235-295 | a parsed group has one validator per VALIDATORS string and one inner set per sub-group; sub-group entry j gives the inner set at its position in entry order, parsed one level down |
| ManualQuorumSet.LoadQsetValidators | src/main/Config.cpp:235-295 | a parsed group's validators are the keys of its VALIDATORS arrays in entry order, each array's keys at the positions after the earlier arrays' strings |
| ManualQuorumSet.LoadEntriesStepIff | src/main/Config.cpp:235-280 | after j accepted entries, the loop passes entry j exactly when it is accepted: a THRESHOLD_PERCENT integer in 1..100, a VALIDATORS array of strings that all parse under the registry so far, or a table accepted one level down |
| ManualQuorumSet.LoadEntriesAcceptedIff | src/main/Config.cpp:235-280 | the loop over n entries succeeds exactly when each of them is accepted in the state the entries before it left |
| ManualQuorumSet.LoadQsetIff | src/main/Config.cpp:218-295 | within three levels, a group is accepted exactly when its loop succeeds and it has at least one validator string or sub-group; the result is then the loop's validators and inner sets under threshold ceiling(n * p / 100), n the child count and p the last valid THRESHOLD_PERCENT or 67 |
| ManualQuorumSet.LoadQsetAcceptedIff | src/main/Config.cpp:218-295 | within three levels, a group is accepted exactly when every entry is accepted in the state the earlier ones left and it has at least one validator string or sub-group |
| ManualQuorumSet.PlainGroupAccepted | src/main/Config.cpp:218-295 | `{THRESHOLD_PERCENT = p, VALIDATORS = [k1, ..., km]}` with p in 1..100, m >= 1 bare strkeys and a well-formed registry is accepted: validators k1..km in order, no inner sets, threshold ceiling(m * p / 100), registry unchanged |
| Validators.ParseDomainsQuality | src/main/Config.cpp:450-454 | anything but an array of tables is "malformed HOME_DOMAINS" |
| Validators.ScanDomainFieldsSpec | src/main/Config.cpp:465-482 | a table's fields pass exactly when each is QUALITY with a known quality or HOME_DOMAIN with a string; the quality is set exactly when a QUALITY field is present |
| Validators.AddDomainSpec | src/main/Config.cpp:483-493 | a table adds its domain and quality exactly when both are given and the domain is new |
| Validators.DomainsFoldSpec | src/main/Config.cpp:455-494 | the loop succeeds exactly when every table is complete and the domains are distinct; the map then has one entry per table, mapping each declared domain to its declared quality |
| Validators.DomainsFoldStep | src/main/Config.cpp:456-493 | one more table keeps that characterisation: the loop still succeeds exactly when every table so far is complete with a new domain, and the map still sends each declared domain to its quality |
| Validators.ParseDomainsQualitySpec | src/main/Config.cpp:446-496 | HOME_DOMAINS is accepted exactly when it is an array of complete tables with distinct domains, and every table's domain maps to its quality |
| Validators.AddHistoryArchive | src/main/Config.cpp:297-308 | succeeds exactly for a new archive name, adds exactly that archive and keeps every existing archive as it was |
| Validators.FinishEntry | src/main/Config.cpp:395-441 | drafts with a missing name, key or domain, with both or neither quality source, or HIGH without an archive are rejected; an accepted entry follows its fields, and registers exactly its (key, name) |
| Validators.AddValidator | src/main/Config.cpp:350-441 | one VALIDATORS table: rejected when its fields fail or break a rule; otherwise the entry follows the table's fields and the registry gains its name |
| Validators.FinishEntryIff | src/main/Config.cpp:395-441 | a scanned table's entry is accepted exactly when no entry rule is broken, its key is a valid strkey, its (key, name) can be registered, and its archive name is new when it has HISTORY |
| Validators.AddValidatorIff | src/main/Config.cpp:350-441 | one VALIDATORS table is accepted exactly when its fields scan and its draft is accepted after its addresses join KNOWN_PEERS |
| Validators.ValidatorsFold | src/main/Config.cpp:348-442 | one entry per table |
| Validators.ValidatorsStep | src/main/Config.cpp:349-442 | each accepted table appends exactly one entry |
| Validators.ValidatorsFoldGrows | src/main/Config.cpp:349-442 | an accepted prefix of n tables is the accepted prefix of n-1 plus one entry that follows table n-1's fields and registers its (key, name) pair |
| Validators.ParseValidators | src/main/Config.cpp:344-348 | anything but an array of tables is "malformed VALIDATORS" |
| Validators.ValidatorsFoldEntries | src/main/Config.cpp:395-440 | every accepted entry i comes from table i and obeys the entry rules: non-empty name, key and domain; one quality source; hasHistory iff HISTORY is set; HIGH implies an archive |
| Validators.ValidatorsFoldNames | src/main/Config.cpp:426 | the registry gains exactly the (key, name) pairs of the accepted entries, in order, and stays well formed |
| Validators.ValidatorsFoldRegistry | src/main/Config.cpp:349-442 | after n accepted tables every table scanned, and the registry is the old one plus each table's (key, name) pair in table order |
| Validators.ValidatorsFoldHistoryStep | src/main/Config.cpp:427-432 | one more accepted table adds its name to HISTORY exactly when it sets HISTORY |
| Validators.ValidatorsFoldHistory | src/main/Config.cpp:427-432 | after n accepted tables HISTORY's names are the old ones plus the name of every table with HISTORY set |
| Validators.DraftAcceptedAfter | src/main/Config.cpp:395-432 | with the state the first i tables left, table i's draft is accepted exactly when it is accepted in terms of the inputs: rules kept, valid key, key and name fresh among the old registry and the earlier tables' pairs, archive name new |
| Validators.AcceptedStep | src/main/Config.cpp:349-442 | after i accepted tables, table i is accepted exactly when it meets those input conditions |
| Validators.ValidatorsFoldAcceptedIff | src/main/Config.cpp:349-442 | the first n tables are all accepted exactly when each table meets those conditions given the tables before it |
| Validators.ParseValidatorsAcceptedIff | src/main/Config.cpp:337-444 | VALIDATORS is accepted exactly when it is an array of tables each meeting those conditions, and then yields exactly one entry per table, entry i following table i's fields |
| Validators.ValidatorsRejected | src/main/Config.cpp:395-440 | one table that breaks an entry rule makes the whole VALIDATORS list fail |
| Validators.AddSelfToValidators | src/main/Config.cpp:545-566 | succeeds exactly when NODE_HOME_DOMAIN has a quality, and then appends exactly the "self" entry with that quality and no archive |
| ValidatorOrder.LexLessStrictTotal | src/main/Config.cpp:1438 | the string order is irreflexive, asymmetric and total on distinct strings |
| ValidatorOrder.BeforeAsymmetric | src/main/Config.cpp:1428-1439 | the comparator is asymmetric, and two entries are unordered exactly when they share quality and home domain |
| ValidatorOrder.SortedMeans | src/main/Config.cpp:1428-1439 | in a sorted list quality never rises, and within one quality the home domains never fall |
| ValidatorOrder.SortValidators | src/main/Config.cpp:1426-1439 | the array ends sorted by the comparator and is a permutation of what it held |
| ValidatorOrder.InsertInto | src/main/Config.cpp:1428-1439 | one insertion step extends the sorted prefix by one, permutes that prefix, leaves the rest of the array as it was, and permutes the whole array |
| Generator.RunPrefix | src/main/Config.cpp:1387-1396 | the inner loop succeeds exactly when the run keeps the quality of its first entry, collecting its keys in order |
| Generator.RunSpec | src/main/Config.cpp:1384-1405 | a same-domain run becomes an inner set of exactly its keys with the simple-majority threshold; it fails exactly on mixed qualities or a HIGH run shorter than 3 |
| Generator.TierRuns | src/main/Config.cpp:1382-1407 | the outer loop stops at the end or at the first entry of another quality, having consumed only entries of the tier's quality |
| Generator.TierStep | src/main/Config.cpp:1382-1407 | from an entry of the tier's quality the loop consumes at least that entry, and what it consumes has the tier's quality |
| Generator.TierRunsLeaves | src/main/Config.cpp:1382-1407 | the tier's inner sets hold exactly the tier's keys, in order |
| Generator.TierRunsShape | src/main/Config.cpp:1397-1405 | each inner set of a tier is flat, has a majority threshold in range, and has at least 3 keys in the HIGH tier |
| Generator.HelperLeaves | src/main/Config.cpp:1374-1421 | the generated tree's leaves are exactly the input keys from `begin`, in order |
| Generator.HelperShape | src/main/Config.cpp:1408-1419 | the node has no direct validators, is at most rank+2 deep, and, when there is at least one entry from `begin`, its thresholds are in range and Byzantine |
| Generator.SortedNeverAscends | src/main/Config.cpp:1408-1415 | on sorted input the "must be ascending" error never occurs |
| Generator.HelperSameQuality | src/main/Config.cpp:1389-1394 | a "must have same quality" error implies two adjacent entries of one home domain with different qualities |
| Generator.HelperAcceptedConditions | src/main/Config.cpp:1374-1421 | success implies that no two neighbouring entries of one home domain differ in quality and that every HIGH run of one home domain has at least 3 entries |
| Generator.HelperUnmixed | src/main/Config.cpp:1382-1421 | success implies that, from `begin` on, no two neighbouring entries of one home domain differ in quality |
| Generator.HelperRedundant | src/main/Config.cpp:1382-1421 | success implies that, from `begin` on, every HIGH run of one home domain has at least 3 entries |
| Generator.HelperAccepts | src/main/Config.cpp:1374-1421 | on sorted input those two conditions imply success |
| Generator.GeneratorOutcome | src/main/Config.cpp:1423-1445 | for sorted input: success iff no two neighbouring entries of one home domain differ in quality and every HIGH run of one home domain has at least 3 entries; never the ascending error; a same-quality error implies a quality drop between two adjacent entries of one domain |
| Generator.KeysOfPermutation | src/main/Config.cpp:1426-1439 | a permutation of the entries permutes their keys |
| Generator.GeneratedTree | src/main/Config.cpp:1423-1445 | every input key appears as a leaf exactly as often as in the input; the root has no validators, depth at most 4, and, for non-empty input, a Byzantine threshold |
| Generator.CollectRun | src/main/Config.cpp:1386-1396 | the inner for loop collects the run's keys or stops with the first mixed-quality error, and ends at the run's end |
| Generator.BuildRun | src/main/Config.cpp:1384-1406 | the body of the while loop yields the run's inner set or error, and stops at the run's end |
| Generator.GenerateQuorumSetHelper | src/main/Config.cpp:1374-1421 | the while loop and the recursion compute the generator's definition |
| Generator.GenerateQuorumSet | src/main/Config.cpp:1423-1445 | sorts a copy into a sorted permutation, then runs the helper from HIGH |
| Generator.OneHighDomainOfThree | src/main/Config.cpp:1374-1421 | three HIGH validators of one domain give threshold 1 over one inner set of the three keys with threshold 2 |
| Generator.OneRunOfThree | src/main/Config.cpp:1384-1405 | three HIGH validators of one domain form one run whose inner set needs 2 of the 3 keys |
| Generator.ShortHighDomainRejected | src/main/Config.cpp:1397-1403 | a leading HIGH domain of fewer than 3 validators gives "High quality validator <name> must have redundancy of at least 3" |
| Configuration.DefaultFailureSafety | src/main/Config.cpp:1133-1142 | the derived FAILURE_SAFETY is (n-1)/2 for a flat simple-majority set and (n-1)/3 otherwise; it is 0 exactly when n <= 2 or n <= 3 respectively |
| Configuration.ValidateIff | src/main/Config.cpp:1115-1193 | validation passes exactly when the set names a validator, FAILURE_SAFETY is below the v-blocking size, the set is sane, and, without UNSAFE_QUORUM, FAILURE_SAFETY > 0 and threshold >= minSize |
| Configuration.ValidatedThreshold | src/main/Config.cpp:1161-1176 | without UNSAFE_QUORUM an accepted root threshold is a strict majority (flat, not mixed) or tolerates under a third of the children failing |
| Configuration.ZeroFailureSafetyRejected | src/main/Config.cpp:1143-1168 | a zero FAILURE_SAFETY without UNSAFE_QUORUM is always refused |
| Configuration.Config.constructor | src/main/Config.cpp:105-106 | FAILURE_SAFETY starts at -1, UNSAFE_QUORUM off, and the registry, peers and archives empty |
| Configuration.Config.AddValidatorName | src/main/Config.cpp:1202-1217 | VALIDATOR_NAMES becomes the registry `AddName` computes, or stays unchanged with its error |
| Configuration.Config.ParseNodeID | src/main/Config.cpp:1219-1267 | result and VALIDATOR_NAMES are those of `Registry.ParseNodeID` |
| Configuration.Config.LoadQset | src/main/Config.cpp:218-295 | the loops and the recursion compute `ManualQuorumSet.LoadQset`: tree, registry and error |
| Configuration.Config.AddHistoryArchive | src/main/Config.cpp:297-308 | HISTORY gains the archive unless the name is taken, in which case it is unchanged |
| Configuration.Config.ParseDomainsQuality | src/main/Config.cpp:446-496 | the nested loops compute `Validators.ParseDomainsQuality` |
| Configuration.Config.ScanDomainTable | src/main/Config.cpp:462-482 | the field loop over one HOME_DOMAINS table |
| Configuration.Config.ScanValidatorTable | src/main/Config.cpp:352-394 | the field loop over one VALIDATORS table; every ADDRESS is appended to KNOWN_PEERS in order |
| Configuration.Config.FinishValidatorEntry | src/main/Config.cpp:395-441 | the checks, registry update and archive of one entry, as `Validators.FinishEntry` |
| Configuration.Config.ParseValidators | src/main/Config.cpp:337-444 | entries, VALIDATOR_NAMES, KNOWN_PEERS and HISTORY are those of `Validators.ParseValidators` |
| Configuration.Config.ParseValidatorEntry | src/main/Config.cpp:350-441 | one table of VALIDATORS gives the entry, or the error, and the VALIDATOR_NAMES, KNOWN_PEERS and HISTORY of `Validators.AddValidator` |
| Configuration.Config.ValidateConfig | src/main/Config.cpp:1115-1193 | the verdict is `Validate` on QUORUM_SET; FAILURE_SAFETY is replaced by its derived value once the set names a validator |

## Left out

- `Config::load`, `processConfig` and the cpptoml parser are not modelled. They are file I/O and a third-party TOML library. The model starts from parsed TOML values, and QUORUM_SET is a field the caller sets.
- The check in `processConfig` that compares a manual QUORUM_SET with the generated one is not modelled. It compares JSON text produced by `LocalNode::toJson`.
- `normalizeQSet` is not modelled. `Generator.GenerateQuorumSet` returns the tree before normalisation.
- `LocalNode::findClosestVBlocking` and `isQuorumSetSane` are not modelled. They are SCP library code, so `Configuration.Config.ValidateConfig` takes them as function parameters.
- The text encoding of keys is only partly modelled. A strkey is 56 characters of the base-32 alphabet starting with 'G'. The checksum is not modelled, and neither is the exact text of the exception `KeyUtils::fromStrKey` throws (`Registry.MalformedKey`).
- The `isSeed` branch of `parseNodeID` is left out, because it needs secret-key decoding. It serves only NODE_SEED.
- `Configuration.Config.ParseNodeID`, `Configuration.Config.LoadQset`, `Configuration.Config.ParseValidators`, `Configuration.Config.ScanValidatorTable`, `Configuration.Config.FinishValidatorEntry` and `Configuration.Config.ParseValidatorEntry` do not describe VALIDATOR_NAMES, KNOWN_PEERS or HISTORY after an error; their contracts compare the state only on success. The source leaves them partly updated, and the error aborts loading.
- The order in which cpptoml visits a table's items is taken as given: a table is a sequence of entries in visiting order. The source notes that this order is not deterministic (src/main/Config.cpp:625). In `loadQset` it decides the order of the validators and inner sets, whether a `$name` declared by a sibling VALIDATORS entry resolves, and which error is reported first. In VALIDATORS and HOME_DOMAINS tables it decides the order of ADDRESS values in KNOWN_PEERS and which field error comes first.
- The iteration order of VALIDATOR_NAMES (a `std::unordered_map`) is not modelled. The model keeps insertion order, so "first match" in `expandNodeID` is well defined. The source's order is unspecified.
- `ValidatorOrder.SortValidators` is an insertion sort, not `std::sort`. `std::sort` is unstable, so the model proves only what holds for any sorted permutation. `Generator.GenerateQuorumSet` returns the sorted copy it used as a ghost result.
- Strings are sequences of Unicode code points, while the source's `std::string` holds UTF-8 bytes. The length checks in `parseNodeID` (src/main/Config.cpp:1223) and `expandNodeID` (src/main/Config.cpp:1317) count bytes in the source and code points here. For a one-character non-ASCII string such as "é", `Registry.ParseNodeID` reports "invalid key: é", whereas the source passes the size check and fails in `KeyUtils::fromStrKey`; `Registry.ExpandNodeID` returns such a string unchanged, as the source does for any string that does not start with '$' or '@'. Only that error message differs. The home-domain order agrees: `std::string` compares characters as `unsigned char`, and UTF-8 byte order is code-point order, which is what `ValidatorOrder.LexLess` uses.
- `ManualQuorumSet.LoadQset` rejects an empty group before computing the threshold. The source computes the threshold first, with an unsigned underflow when n = 0, and then rejects the group with the same message.
- `Configuration.Validate` uses unbounded integers. The source's `uint32` subtraction for the derived FAILURE_SAFETY cannot wrap, because the default threshold never exceeds the top-level count.
- `Validators.AddSelfToValidators` does not check that the "self" entry has an archive when its domain is HIGH. The source does not check this either.
- `adjust`, `logBasicInfo`, `getExpectedLedgerCloseTime`, `setNoListen` and `verifyHistoryValidatorsBlocking` are not modelled. They are floating-point, OS, logging or SCP-library code outside the quorum configuration logic.
- `src/work/test/WorkTests.cpp` is not part of this model. It tests an asynchronous work scheduler.
