/** The identity registry `VALIDATOR_NAMES`: pairs of (encoded public key,
    human name), kept in insertion order so that "the first entry that
    matches" is well defined, and the lookups over it. */
module Registry {
  import opened Wrappers
  import opened Keys

  datatype NameEntry = NameEntry(key: string, name: string)

  /** The registry invariant that loading maintains: every key is a valid
      strkey, every name is non-empty, and keys and names are each unique. */
  predicate WellFormed(names: seq<NameEntry>) {
    && (forall i :: 0 <= i < |names| ==> ValidStrKey(names[i].key) && names[i].name != "")
    && (forall i, j :: 0 <= i < j < |names| ==> names[i].key != names[j].key)
    && (forall i, j :: 0 <= i < j < |names| ==> names[i].name != names[j].name)
  }

  /** `p.first.compare(0, arg.size(), arg) == 0`: arg is a prefix of the key. */
  predicate IsPrefix(p: string, s: string) {
    |p| <= |s| && s[..|p|] == p
  }

  /** The matcher `expandNodeID` builds: `$` compares the name exactly, `@` the
      beginning of the key. */
  predicate Matches(e: NameEntry, sigil: char, arg: string) {
    if sigil == '$' then e.name == arg else IsPrefix(arg, e.key)
  }

  /** `std::find_if` over the registry from position i. */
  function FindFirst(names: seq<NameEntry>, sigil: char, arg: string, i: nat): (r: Option<nat>)
    requires i <= |names|
    decreases |names| - i
    ensures r.Some? ==> i <= r.value < |names| && Matches(names[r.value], sigil, arg)
    ensures r.Some? ==> forall j :: i <= j < r.value ==> !Matches(names[j], sigil, arg)
    ensures r.None? ==> forall j :: i <= j < |names| ==> !Matches(names[j], sigil, arg)
  {
    if i == |names| then None
    else if Matches(names[i], sigil, arg) then Some(i)
    else FindFirst(names, sigil, arg, i + 1)
  }

  predicate IsAlias(s: string) {
    |s| >= 2 && (s[0] == '$' || s[0] == '@')
  }

  /** `expandNodeID`: a string that is not an alias is returned unchanged;
      `$name` and `@prefix` give the key of the first matching entry, or "". */
  function ExpandNodeID(names: seq<NameEntry>, s: string): (r: string)
    ensures !IsAlias(s) ==> r == s
    ensures IsAlias(s) ==>
      || (r == "" && forall j :: 0 <= j < |names| ==> !Matches(names[j], s[0], s[1..]))
      || (exists i :: 0 <= i < |names| && Matches(names[i], s[0], s[1..]) && r == names[i].key &&
                      forall j :: 0 <= j < i ==> !Matches(names[j], s[0], s[1..]))
  {
    if !IsAlias(s) then s
    else
      match FindFirst(names, s[0], s[1..], 0)
      case Some(i) => names[i].key
      case None => ""
  }

  /** `resolveNodeID`: expand, then decode; fails on "" or a malformed key. */
  function ResolveNodeID(names: seq<NameEntry>, s: string): (r: Option<PublicKey>)
    ensures r.Some? <==> ValidStrKey(ExpandNodeID(names, s))
    ensures r.Some? ==> ToStrKey(r.value) == ExpandNodeID(names, s)
  {
    var expanded := ExpandNodeID(names, s);
    if expanded == "" then None else FromStrKey(expanded)
  }

  function FindKey(names: seq<NameEntry>, key: string, i: nat): (r: Option<nat>)
    requires i <= |names|
    decreases |names| - i
    ensures r.Some? ==> i <= r.value < |names| && names[r.value].key == key
    ensures r.Some? ==> forall j :: i <= j < r.value ==> names[j].key != key
    ensures r.None? ==> forall j :: i <= j < |names| ==> names[j].key != key
  {
    if i == |names| then None
    else if names[i].key == key then Some(i)
    else FindKey(names, key, i + 1)
  }

  /** `toShortString`: the registered name of the key, else its first 5 characters. */
  function ToShortString(names: seq<NameEntry>, pk: PublicKey): (r: string)
    ensures (forall i :: 0 <= i < |names| ==> names[i].key != ToStrKey(pk)) ==> r == ToStrKey(pk)[..5]
    ensures WellFormed(names) ==>
      forall i :: 0 <= i < |names| && names[i].key == ToStrKey(pk) ==> r == names[i].name
  {
    match FindKey(names, ToStrKey(pk), 0)
    case Some(i) => names[i].name
    case None => ToStrKey(pk)[..5]
  }

  /** The registry after `addValidatorName(key, name)`, or its exception. */
  function AddName(names: seq<NameEntry>, key: string, name: string): (r: Result<seq<NameEntry>, string>)
    ensures r.Ok? ==> r.value == names + [NameEntry(key, name)]
    ensures r.Ok? ==> forall i :: 0 <= i < |names| ==> names[i].key != key
    ensures ResolveNodeID(names, "$" + name).Some? ==> r == Err("name already used: " + name)
  {
    if ResolveNodeID(names, "$" + name).Some? then Err("name already used: " + name)
    else if FindKey(names, key, 0).Some? then Err("naming node twice: " + name)
    else Ok(names + [NameEntry(key, name)])
  }

  lemma AliasParts(name: string)
    requires name != ""
    ensures IsAlias("$" + name) && ("$" + name)[0] == '$' && ("$" + name)[1..] == name
  {
  }

  /** In a well-formed registry `$name` resolves to the key registered under name. */
  lemma {:induction false} ResolveRegisteredName(names: seq<NameEntry>, i: nat)
    requires WellFormed(names) && i < |names|
    ensures ResolveNodeID(names, "$" + names[i].name) == Some(PublicKey(names[i].key))
  {
    var s := "$" + names[i].name;
    AliasParts(names[i].name);
    var f := FindFirst(names, '$', names[i].name, 0);
    assert Matches(names[i], '$', names[i].name);
    assert f.Some? && f.value == i;
    assert ExpandNodeID(names, s) == names[i].key;
  }

  /** In a well-formed registry, `$name` resolves exactly when name is registered. */
  lemma {:induction false} ResolveNameIff(names: seq<NameEntry>, name: string)
    requires WellFormed(names) && name != ""
    ensures ResolveNodeID(names, "$" + name).Some? <==> exists i :: 0 <= i < |names| && names[i].name == name
  {
    AliasParts(name);
    if i :| 0 <= i < |names| && names[i].name == name {
      ResolveRegisteredName(names, i);
    } else {
      assert FindFirst(names, '$', name, 0).None?;
    }
  }

  /** `addValidatorName` fails exactly when the name or the key is already
      registered, and otherwise keeps the registry well formed. */
  lemma {:induction false} AddNameSpec(names: seq<NameEntry>, key: string, name: string)
    requires WellFormed(names) && ValidStrKey(key) && name != ""
    ensures AddName(names, key, name).Err? <==>
              (exists i :: 0 <= i < |names| && names[i].name == name) ||
              (exists i :: 0 <= i < |names| && names[i].key == key)
    ensures AddName(names, key, name).Ok? ==> WellFormed(AddName(names, key, name).value)
  {
    ResolveNameIff(names, name);
    if (exists i :: 0 <= i < |names| && names[i].key == key) {
      assert FindKey(names, key, 0).Some?;
    }
  }

  /** An identity that is already an encoded key resolves to itself. */
  lemma ResolvePlainKey(names: seq<NameEntry>, s: string)
    requires ValidStrKey(s)
    ensures ResolveNodeID(names, s) == Some(PublicKey(s))
  {
  }

  // ---- parseNodeID (public-key form) ----

  /** The characters `std::istream >> std::string` treats as separators. */
  predicate IsSpace(c: char) {
    c == ' ' || c == '\t' || c == '\n' || c == '\r' || c == '\U{0B}' || c == '\U{0C}'
  }

  function SkipSpaces(s: string, i: nat): (j: nat)
    requires i <= |s|
    decreases |s| - i
    ensures i <= j <= |s| && (j < |s| ==> !IsSpace(s[j]))
    ensures forall k :: i <= k < j ==> IsSpace(s[k])
  {
    if i == |s| || !IsSpace(s[i]) then i else SkipSpaces(s, i + 1)
  }

  function WordEnd(s: string, i: nat): (j: nat)
    requires i <= |s|
    decreases |s| - i
    ensures i <= j <= |s| && (j < |s| ==> IsSpace(s[j]))
    ensures forall k :: i <= k < j ==> !IsSpace(s[k])
  {
    if i == |s| || IsSpace(s[i]) then i else WordEnd(s, i + 1)
  }

  /** `iss >> word` from position i: the next blank-delimited word ("" at the
      end of the input) and the position after it. */
  function ReadWord(s: string, i: nat): (r: (string, nat))
    requires i <= |s|
    ensures i + |r.0| <= r.1 <= |s|
  {
    var a := SkipSpaces(s, i);
    var b := WordEnd(s, a);
    (s[a..b], b)
  }

  /** The word is what follows the blanks after i, up to the next blank or
      the end of the input; it is empty exactly when only blanks remain. */
  lemma ReadWordSpec(s: string, i: nat)
    requires i <= |s|
    ensures var r := ReadWord(s, i);
            && r.0 == s[r.1 - |r.0|..r.1]
            && (forall k :: i <= k < r.1 - |r.0| ==> IsSpace(s[k]))
            && (forall k :: 0 <= k < |r.0| ==> !IsSpace(r.0[k]))
            && (r.1 == |s| || IsSpace(s[r.1]))
            && (r.0 == "" <==> forall k :: i <= k < |s| ==> IsSpace(s[k]))
            && (r.0 == "" ==> r.1 == |s|)
  {
  }

  /** The message of the exception `KeyUtils::fromStrKey` throws; its text is
      not part of this model. */
  const MalformedKey: string := "invalid strkey"

  /** `parseNodeID(configStr, retKey)` with `isSeed == false`: the decoded key
      and the registry afterwards. A `$name` alias must resolve; otherwise the
      first word is the key and an optional second word names it. */
  function ParseNodeID(names: seq<NameEntry>, configStr: string): (r: Result<(PublicKey, seq<NameEntry>), string>)
    ensures |configStr| < 2 ==> r == Err("invalid key: " + configStr)
    ensures |configStr| >= 2 && configStr[0] == '$' ==>
              r == (match ResolveNodeID(names, configStr)
                    case Some(k) => Ok((k, names))
                    case None => Err("unknown key in config: " + configStr))
    ensures r.Ok? ==> r.value.1 == names || |r.value.1| == |names| + 1
  {
    if |configStr| < 2 then Err("invalid key: " + configStr)
    else if configStr[0] == '$' then
      match ResolveNodeID(names, configStr)
      case None => Err("unknown key in config: " + configStr)
      case Some(k) => Ok((k, names))
    else
      var (nodestr, pos) := ReadWord(configStr, 0);
      match FromStrKey(nodestr)
      case None => Err(MalformedKey)
      case Some(k) =>
        var (commonName, _) := ReadWord(configStr, pos);
        if commonName == "" then Ok((k, names))
        else
          match AddName(names, nodestr, commonName)
          case Err(e) => Err(e)
          case Ok(names') => Ok((k, names'))
  }

  /** `parseNodeID` on "KEY [NAME ...]" with a well-formed registry: it
      succeeds exactly when the first word is a valid key and, if a second
      word is present, neither it nor the key is registered yet; the result is
      the first word's key, with (KEY, NAME) appended when a name is given. */
  lemma ParseNodeIDSpec(names: seq<NameEntry>, configStr: string)
    requires WellFormed(names)
    requires |configStr| >= 2 && configStr[0] != '$'
    ensures var (key, pos) := ReadWord(configStr, 0);
            var name := ReadWord(configStr, pos).0;
            var r := ParseNodeID(names, configStr);
            && (!ValidStrKey(key) ==> r == Err(MalformedKey))
            && (r.Ok? <==> ValidStrKey(key) &&
                           (name == "" || forall i :: 0 <= i < |names| ==> names[i].name != name && names[i].key != key))
            && (r.Ok? ==> ToStrKey(r.value.0) == key)
            && (r.Ok? && name == "" ==> r.value.1 == names)
            && (r.Ok? && name != "" ==> r.value.1 == names + [NameEntry(key, name)])
            && (r.Ok? ==> WellFormed(r.value.1))
  {
    var (key, pos) := ReadWord(configStr, 0);
    var name := ReadWord(configStr, pos).0;
    if ValidStrKey(key) && name != "" {
      AddNameSpec(names, key, name);
    }
  }

  lemma {:induction false} ReadWordOfConcat(key: string, name: string)
    requires ValidStrKey(key) && name != ""
    requires forall k :: 0 <= k < |name| ==> !IsSpace(name[k])
    ensures var s := key + " " + name;
            ReadWord(s, 0) == (key, |key|) && ReadWord(s, |key|).0 == name
  {
    var s := key + " " + name;
    assert !IsSpace(key[0]);
    assert SkipSpaces(s, 0) == 0;
    var e := WordEnd(s, 0);
    assert IsSpace(s[|key|]);
    assert forall k :: 0 <= k < |key| ==> s[k] == key[k] && !IsSpace(s[k]);
    assert e == |key|;
    assert s[0..|key|] == key;
    assert SkipSpaces(s, |key|) == |key| + 1 by {
      assert s[|key| + 1] == name[0];
    }
    var e2 := WordEnd(s, |key| + 1);
    assert forall k :: |key| + 1 <= k < |s| ==> s[k] == name[k - |key| - 1];
    assert e2 == |s|;
    assert s[|key| + 1..|s|] == name;
  }

  /** Declaring "KEY name" registers the name, after which `$name` resolves to KEY. */
  lemma {:induction false} DeclaredNameResolves(names: seq<NameEntry>, key: string, name: string)
    requires WellFormed(names) && ValidStrKey(key) && name != ""
    requires forall k :: 0 <= k < |name| ==> !IsSpace(name[k])
    requires forall i :: 0 <= i < |names| ==> names[i].key != key && names[i].name != name
    ensures var r := ParseNodeID(names, key + " " + name);
            && r == Ok((PublicKey(key), names + [NameEntry(key, name)]))
            && WellFormed(r.value.1)
            && ResolveNodeID(r.value.1, "$" + name) == Some(PublicKey(key))
  {
    var s := key + " " + name;
    ReadWordOfConcat(key, name);
    assert s[0] == 'G';
    AddNameSpec(names, key, name);
    var names' := names + [NameEntry(key, name)];
    assert AddName(names, key, name) == Ok(names');
    assert ParseNodeID(names, s) == Ok((PublicKey(key), names'));
    ResolveRegisteredName(names', |names|);
  }
}
