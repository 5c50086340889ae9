// Which transports a discovery may use (backend/app/discovery/transport_policy.py,
// backend/app/discovery/execution.py).

module TransportPolicy {
  import opened Common
  import opened Texts

  datatype Capability = SSH | SNMP | TELNET | ICMP | HTTP | HTTPS

  datatype Entry = Entry(capability: Capability, name: string, isInsecure: bool, credentialCompatible: bool)

  datatype Profile = Profile(id: Option<string>, transportTypes: seq<string>, credentialType: Option<string>)

  datatype Policy = Policy(
    transports: seq<Entry>, allowInsecure: bool, allowInsecureHttp: bool, profileId: Option<string>)

  // What a target's metadata asks for.
  datatype Wishes = Wishes(
    allowInsecure: bool, allowInsecureHttp: bool, fallbacks: seq<string>, preferred: Option<string>)

  function CapabilityOf(name: string): Option<Capability> {
    match Upper(name)
    case "SSH" => Some(SSH)
    case "SNMP" => Some(SNMP)
    case "TELNET" => Some(TELNET)
    case "ICMP" => Some(ICMP)
    case "HTTP" => Some(HTTP)
    case "HTTPS" => Some(HTTPS)
    case _ => None
  }

  predicate HasService(c: Capability) { !c.ICMP? }

  predicate Insecure(c: Capability) { c.TELNET? || c.HTTP? }

  predicate Compatible(credentialType: Option<string>, name: string) {
    if credentialType.None? || credentialType.value == "" then true
    else match credentialType.value
      case "ssh_password" => name in ["ssh", "telnet", "http", "https"]
      case "ssh_key" => name == "ssh"
      case "telnet_password" => name == "telnet"
      case "snmp_v2c" => name == "snmp"
      case "snmp_v3" => name == "snmp"
      case "http_basic" => name in ["http", "https"]
      case "http_token" => name in ["http", "https"]
      case _ => false
  }

  predicate Forbidden(c: Capability, allowInsecure: bool, allowInsecureHttp: bool) {
    (c.TELNET? && !allowInsecure) || (c.HTTP? && !allowInsecureHttp)
  }

  /** The policy's constructor; None when its check raises. */
  function Construct(entries: seq<Entry>, allowInsecure: bool, allowInsecureHttp: bool, profileId: Option<string>)
    : Option<Policy>
  {
    if exists i | 0 <= i < |entries| ::
        entries[i].isInsecure && Forbidden(entries[i].capability, allowInsecure, allowInsecureHttp)
    then None
    else Some(Policy(entries, allowInsecure, allowInsecureHttp, profileId))
  }

  function Names(entries: seq<Entry>): seq<string> {
    seq(|entries|, i requires 0 <= i < |entries| => entries[i].name)
  }

  /** The entry a lower-case name stands for, if it has a capability with a service. */
  function EntryFor(name: string, credentialType: Option<string>): Option<Entry> {
    var c := CapabilityOf(name);
    if c.None? || !HasService(c.value) then None
    else Some(Entry(c.value, name, Insecure(c.value), Compatible(credentialType, name)))
  }

  // ------------------------------------------------------------ from a profile

  predicate Admitted(name: string, allowInsecure: bool, allowInsecureHttp: bool) {
    var c := CapabilityOf(name);
    c.Some? && HasService(c.value) && !Forbidden(c.value, allowInsecure, allowInsecureHttp)
  }

  /** The lower-case names of the types admitted, with repeats. */
  function AdmittedNames(types: seq<string>, allowInsecure: bool, allowInsecureHttp: bool): (r: seq<string>)
    ensures forall i | 0 <= i < |r| :: EntryFor(r[i], None).Some?
  {
    if types == [] then []
    else
      var last := types[|types| - 1];
      CaseFacts(last);
      AdmittedNames(types[..|types| - 1], allowInsecure, allowInsecureHttp)
        + if Admitted(last, allowInsecure, allowInsecureHttp) then [Lower(last)] else []
  }

  function Entries(names: seq<string>, credentialType: Option<string>): seq<Entry>
    requires forall i | 0 <= i < |names| :: EntryFor(names[i], None).Some?
  {
    seq(|names|, i requires 0 <= i < |names| && EntryFor(names[i], None).Some? => EntryFor(names[i], credentialType).value)
  }

  function TypesOf(profile: Profile): seq<string> {
    if profile.transportTypes == [] then ["ssh"] else profile.transportTypes
  }

  function ProfileNames(profile: Profile, allowInsecure: bool, allowInsecureHttp: bool): seq<string> {
    Dedup(AdmittedNames(TypesOf(profile), allowInsecure, allowInsecureHttp))
  }

  predicate LowersTo(types: seq<string>, name: string) {
    exists i | 0 <= i < |types| :: Lower(types[i]) == name
  }

  lemma LowersToSnoc(front: seq<string>, last: string, name: string)
    ensures LowersTo(front + [last], name) <==> LowersTo(front, name) || Lower(last) == name
  {
    var types := front + [last];
    assert types[|front|] == last;
    if LowersTo(front, name) {
      var i :| 0 <= i < |front| && Lower(front[i]) == name;
      assert types[i] == front[i];
    }
  }

  lemma AdmittedLower(last: string, allowInsecure: bool, allowInsecureHttp: bool)
    ensures Admitted(Lower(last), allowInsecure, allowInsecureHttp) == Admitted(last, allowInsecure, allowInsecureHttp)
  {
    CaseFacts(last);
  }

  lemma {:induction false} AdmittedNamesAre(types: seq<string>, allowInsecure: bool, allowInsecureHttp: bool, name: string)
    ensures name in AdmittedNames(types, allowInsecure, allowInsecureHttp) <==>
      Admitted(name, allowInsecure, allowInsecureHttp) && LowersTo(types, name)
  {
    if types != [] {
      var front, last := types[..|types| - 1], types[|types| - 1];
      assert types == front + [last];
      AdmittedNamesAre(front, allowInsecure, allowInsecureHttp, name);
      AdmittedLower(last, allowInsecure, allowInsecureHttp);
      LowersToSnoc(front, last, name);
    }
  }

  method AdmittedEntries(types: seq<string>, credentialType: Option<string>, allowInsecure: bool, allowInsecureHttp: bool)
    returns (entries: seq<Entry>)
    ensures entries == Entries(AdmittedNames(types, allowInsecure, allowInsecureHttp), credentialType)
  {
    entries := [];
    for i := 0 to |types|
      invariant entries == Entries(AdmittedNames(types[..i], allowInsecure, allowInsecureHttp), credentialType)
    {
      var entry := AdmittedEntry(types[i], credentialType, allowInsecure, allowInsecureHttp);
      AdmitOneMore(types, i, credentialType, allowInsecure, allowInsecureHttp, entry);
      if entry.Some? { entries := entries + [entry.value]; }
    }
    assert types[..|types|] == types;
  }

  /** The loop body: what one configured type contributes. */
  method AdmittedEntry(name: string, credentialType: Option<string>, allowInsecure: bool, allowInsecureHttp: bool)
    returns (entry: Option<Entry>)
    ensures entry == if Admitted(name, allowInsecure, allowInsecureHttp) then EntryFor(Lower(name), credentialType) else None
  {
    CaseFacts(name);
    var capability := CapabilityOf(name);
    if capability.None? { return None; }
    if !HasService(capability.value) { return None; }
    if Forbidden(capability.value, allowInsecure, allowInsecureHttp) { return None; }
    entry := Some(Entry(capability.value, Lower(name), Insecure(capability.value), Compatible(credentialType, Lower(name))));
  }

  lemma AdmitOneMore(
    types: seq<string>, i: nat, credentialType: Option<string>, allowInsecure: bool, allowInsecureHttp: bool,
    entry: Option<Entry>)
    requires i < |types|
    requires entry == if Admitted(types[i], allowInsecure, allowInsecureHttp) then EntryFor(Lower(types[i]), credentialType) else None
    ensures var before := Entries(AdmittedNames(types[..i], allowInsecure, allowInsecureHttp), credentialType);
      Entries(AdmittedNames(types[..i + 1], allowInsecure, allowInsecureHttp), credentialType)
      == if entry.Some? then before + [entry.value] else before
  {
    assert types[..i + 1][..i] == types[..i];
    CaseFacts(types[i]);
  }

  method FromCredentialProfile(profile: Profile, allowInsecure: bool, allowInsecureHttp: bool)
    returns (r: Option<Policy>)
    ensures r.Some?
    ensures r.value.allowInsecure == allowInsecure && r.value.allowInsecureHttp == allowInsecureHttp
    ensures r.value.profileId == profile.id
    ensures Names(r.value.transports) == ProfileNames(profile, allowInsecure, allowInsecureHttp)
    ensures forall i | 0 <= i < |r.value.transports| ::
      Some(r.value.transports[i]) == EntryFor(r.value.transports[i].name, profile.credentialType)
  {
    var types := TypesOf(profile);
    var entries := AdmittedEntries(types, profile.credentialType, allowInsecure, allowInsecureHttp);
    ghost var all := AdmittedNames(types, allowInsecure, allowInsecureHttp);
    var seen: set<string>, unique: seq<Entry> := {}, [];
    for i := 0 to |entries|
      invariant Names(unique) == Dedup(all[..i]) && forall n :: n in seen <==> n in Names(unique)
      invariant forall k | 0 <= k < |unique| :: unique[k] in entries
    {
      assert all[..i + 1][..i] == all[..i] && entries[i].name == all[i];
      if entries[i].name !in seen {
        seen := seen + {entries[i].name};
        unique := unique + [entries[i]];
      }
    }
    assert all[..|all|] == all;
    forall k | 0 <= k < |unique|
      ensures Some(unique[k]) == EntryFor(unique[k].name, profile.credentialType)
      ensures !Forbidden(unique[k].capability, allowInsecure, allowInsecureHttp)
    {
      assert unique[k].name in all;
      AdmittedNamesAre(types, allowInsecure, allowInsecureHttp, unique[k].name);
    }
    r := Construct(unique, allowInsecure, allowInsecureHttp, profile.id);
  }

  // ------------------------------------------------------- for a target's wishes

  /** The names before fallbacks: the profile's, or SSH if there are none. */
  function BaseNames(profile: Option<Profile>, w: Wishes): seq<string> {
    if profile.None? then ["ssh"]
    else
      var names := ProfileNames(profile.value, w.allowInsecure, w.allowInsecureHttp);
      if names == [] then ["ssh"] else names
  }

  predicate Offers(profile: Profile, name: string) {
    LowersTo(profile.transportTypes, name)
  }

  predicate Supported(profile: Option<Profile>, name: string) {
    profile.None? || Offers(profile.value, name)
  }

  predicate Eligible(profile: Option<Profile>, w: Wishes, name: string) {
    && Supported(profile, name)
    && !(name == "telnet" && !w.allowInsecure)
    && !(name == "http" && !w.allowInsecureHttp)
  }

  function WithFallbacks(profile: Option<Profile>, w: Wishes, fallbacks: seq<string>): seq<string> {
    if fallbacks == [] then BaseNames(profile, w)
    else
      var before, name := WithFallbacks(profile, w, fallbacks[..|fallbacks| - 1]), Lower(fallbacks[|fallbacks| - 1]);
      if name !in before && Eligible(profile, w, name) then before + [name] else before
  }

  function Remove(names: seq<string>, name: string): seq<string> {
    if names == [] then []
    else if names[0] == name then names[1..]
    else [names[0]] + Remove(names[1..], name)
  }

  function Promote(names: seq<string>, preferred: Option<string>): seq<string> {
    if preferred.Some? && Lower(preferred.value) in names
    then [Lower(preferred.value)] + Remove(names, Lower(preferred.value))
    else names
  }

  predicate Survives(name: string, w: Wishes) {
    EntryFor(name, None).Some? && !(EntryFor(name, None).value.isInsecure && !w.allowInsecure)
  }

  function Survivors(names: seq<string>, w: Wishes): seq<string> {
    if names == [] then []
    else
      var last := names[|names| - 1];
      Survivors(names[..|names| - 1], w) + if Survives(last, w) then [last] else []
  }

  /** The names of the resolved policy's transports. */
  function ResolvedNames(profile: Option<Profile>, w: Wishes): seq<string> {
    Survivors(Promote(Dedup(WithFallbacks(profile, w, w.fallbacks)), w.preferred), w)
  }

  method AddFallbacks(profile: Option<Profile>, w: Wishes, base: seq<string>) returns (names: seq<string>)
    requires base == BaseNames(profile, w)
    ensures names == WithFallbacks(profile, w, w.fallbacks)
  {
    names := base;
    for i := 0 to |w.fallbacks|
      invariant names == WithFallbacks(profile, w, w.fallbacks[..i])
    {
      assert w.fallbacks[..i + 1][..i] == w.fallbacks[..i];
      var name := Lower(w.fallbacks[i]);
      if profile.Some? && !Supported(profile, name) { continue; }
      if name !in names {
        if name == "telnet" && !w.allowInsecure { continue; }
        if name == "http" && !w.allowInsecureHttp { continue; }
        names := names + [name];
      }
    }
    assert w.fallbacks[..|w.fallbacks|] == w.fallbacks;
  }

  method WithoutRepeats(names: seq<string>) returns (ordered: seq<string>)
    ensures ordered == Dedup(names)
  {
    var seen: set<string> := {};
    ordered := [];
    for i := 0 to |names|
      invariant ordered == Dedup(names[..i]) && forall n :: n in seen <==> n in ordered
    {
      assert names[..i + 1][..i] == names[..i];
      if names[i] !in seen {
        seen := seen + {names[i]};
        ordered := ordered + [names[i]];
      }
    }
    assert names[..|names|] == names;
  }

  method BuildEntries(ordered: seq<string>, w: Wishes, credentialType: Option<string>) returns (entries: seq<Entry>)
    requires forall i | 0 <= i < |ordered| :: Lower(ordered[i]) == ordered[i]
    ensures Names(entries) == Survivors(ordered, w)
    ensures forall k | 0 <= k < |entries| :: Some(entries[k]) == EntryFor(entries[k].name, credentialType)
  {
    entries := [];
    for i := 0 to |ordered|
      invariant Names(entries) == Survivors(ordered[..i], w)
      invariant forall k | 0 <= k < |entries| :: Some(entries[k]) == EntryFor(entries[k].name, credentialType)
    {
      assert ordered[..i + 1][..i] == ordered[..i];
      var capability := CapabilityOf(ordered[i]);
      if capability.None? { continue; }
      if !HasService(capability.value) { continue; }
      if Insecure(capability.value) && !w.allowInsecure { continue; }
      entries := entries + [Entry(capability.value, Lower(ordered[i]), Insecure(capability.value),
        Compatible(credentialType, Lower(ordered[i])))];
    }
    assert ordered[..|ordered|] == ordered;
  }

  /** _resolve_transport_policy; its constructor never raises. */
  method ResolveTransportPolicy(profile: Option<Profile>, w: Wishes) returns (r: Option<Policy>)
    ensures r.Some?
    ensures Names(r.value.transports) == ResolvedNames(profile, w)
    ensures r.value.allowInsecure == w.allowInsecure && r.value.allowInsecureHttp == w.allowInsecureHttp
    ensures forall k | 0 <= k < |r.value.transports| ::
      var e := r.value.transports[k];
      Some(e) == EntryFor(e.name, if profile.Some? then profile.value.credentialType else None)
  {
    var base := ["ssh"];
    if profile.Some? {
      var policy := FromCredentialProfile(profile.value, w.allowInsecure, w.allowInsecureHttp);
      if policy.value.transports != [] {
        base := Names(policy.value.transports);
      }
    }
    var names := AddFallbacks(profile, w, base);
    var ordered := WithoutRepeats(names);
    LowerCaseNames(profile, w, w.fallbacks);
    DedupFacts(names);
    if w.preferred.Some? && Lower(w.preferred.value) in ordered {
      CaseFacts(w.preferred.value);
      RemoveFacts(ordered, Lower(w.preferred.value));
    }
    ordered := Promote(ordered, w.preferred);
    forall i | 0 <= i < |ordered| ensures Lower(ordered[i]) == ordered[i] && ordered[i] in names {
    }
    var entries := BuildEntries(ordered, w, if profile.Some? then profile.value.credentialType else None);
    forall k | 0 <= k < |entries| ensures !Forbidden(entries[k].capability, w.allowInsecure, w.allowInsecureHttp) {
      assert Names(entries)[k] in Survivors(ordered, w);
      SurvivorsAre(ordered, w, entries[k].name);
      NothingForbidden(profile, w, w.fallbacks, entries[k].name);
    }
    r := Construct(entries, w.allowInsecure, w.allowInsecureHttp,
      if profile.Some? then profile.value.id else None);
  }

  // ----------------------------------------------------------------------- laws

  lemma {:induction false} RemoveFacts(names: seq<string>, name: string)
    ensures forall n | n in Remove(names, name) :: n in names
    ensures name in names ==> |Remove(names, name)| == |names| - 1
    ensures Distinct(names) ==>
      forall n :: n in Remove(names, name) <==> n in names && n != name
  {
    if names != [] {
      RemoveFacts(names[1..], name);
      assert names == [names[0]] + names[1..];
    }
  }

  lemma {:induction false} SurvivorsAre(names: seq<string>, w: Wishes, name: string)
    ensures name in Survivors(names, w) <==> name in names && Survives(name, w)
  {
    if names != [] { SurvivorsAre(names[..|names| - 1], w, name); }
  }

  lemma BaseNamesAre(profile: Option<Profile>, w: Wishes, name: string)
    requires name in BaseNames(profile, w)
    ensures Admitted(name, w.allowInsecure, w.allowInsecureHttp) && Lower(name) == name
  {
    assert Upper("ssh") == "SSH" && Lower("ssh") == "ssh";
    if profile.Some? && name in ProfileNames(profile.value, w.allowInsecure, w.allowInsecureHttp) {
      var types := TypesOf(profile.value);
      DedupFacts(AdmittedNames(types, w.allowInsecure, w.allowInsecureHttp));
      AdmittedNamesAre(types, w.allowInsecure, w.allowInsecureHttp, name);
      if i :| 0 <= i < |types| && Lower(types[i]) == name { CaseFacts(types[i]); }
    }
  }

  lemma {:induction false} LowerCaseNames(profile: Option<Profile>, w: Wishes, fallbacks: seq<string>)
    ensures forall n | n in WithFallbacks(profile, w, fallbacks) :: Lower(n) == n
  {
    if fallbacks == [] {
      forall n | n in BaseNames(profile, w) ensures Lower(n) == n { BaseNamesAre(profile, w, n); }
    } else {
      LowerCaseNames(profile, w, fallbacks[..|fallbacks| - 1]);
      CaseFacts(fallbacks[|fallbacks| - 1]);
    }
  }

  function NameOf(c: Capability): string {
    match c
    case SSH => "ssh"
    case SNMP => "snmp"
    case TELNET => "telnet"
    case ICMP => "icmp"
    case HTTP => "http"
    case HTTPS => "https"
  }

  /** A lower-case name is the one name of its capability. */
  lemma CapabilityNames(name: string)
    requires Lower(name) == name && CapabilityOf(name).Some?
    ensures name == NameOf(CapabilityOf(name).value)
  {
    CaseFacts(name);
    assert Lower("TELNET") == "telnet" && Lower("HTTP") == "http" && Lower("SSH") == "ssh" && Lower("SNMP") == "snmp";
    assert Lower("HTTPS") == "https" && Lower("ICMP") == "icmp";
  }

  /** A name that got through carries no forbidden capability. */
  lemma {:induction false} NothingForbidden(profile: Option<Profile>, w: Wishes, fallbacks: seq<string>, name: string)
    requires name in WithFallbacks(profile, w, fallbacks) && CapabilityOf(name).Some?
    ensures !Forbidden(CapabilityOf(name).value, w.allowInsecure, w.allowInsecureHttp)
  {
    if fallbacks == [] {
      BaseNamesAre(profile, w, name);
    } else if name in WithFallbacks(profile, w, fallbacks[..|fallbacks| - 1]) {
      NothingForbidden(profile, w, fallbacks[..|fallbacks| - 1], name);
    } else {
      CaseFacts(fallbacks[|fallbacks| - 1]);
      CapabilityNames(name);
    }
  }

  lemma {:induction false} SurvivorsDistinct(names: seq<string>, w: Wishes)
    requires Distinct(names)
    ensures Distinct(Survivors(names, w))
  {
    if names != [] {
      var front := names[..|names| - 1];
      SurvivorsDistinct(front, w);
      forall i | 0 <= i < |Survivors(front, w)| ensures Survivors(front, w)[i] in front {
        assert Survivors(front, w)[i] in Survivors(front, w);
        SurvivorsAre(front, w, Survivors(front, w)[i]);
      }
      assert names[|names| - 1] !in front;
    }
  }

  lemma {:induction false} RemoveDistinct(names: seq<string>, name: string)
    requires Distinct(names)
    ensures Distinct(Remove(names, name))
  {
    if names != [] {
      RemoveDistinct(names[1..], name);
      RemoveFacts(names[1..], name);
      assert names[0] !in names[1..];
      forall i | 0 <= i < |Remove(names[1..], name)| ensures Remove(names[1..], name)[i] in names[1..] {
      }
    }
  }

  lemma PromoteFacts(names: seq<string>, preferred: Option<string>)
    requires Distinct(names)
    ensures Distinct(Promote(names, preferred))
    ensures forall n :: n in Promote(names, preferred) <==> n in names
  {
    if preferred.Some? {
      RemoveFacts(names, Lower(preferred.value));
      RemoveDistinct(names, Lower(preferred.value));
    }
  }

  /** Which names come out, whatever their order. */
  lemma ResolvedNamesAre(profile: Option<Profile>, w: Wishes, name: string)
    ensures name in ResolvedNames(profile, w) <==> name in WithFallbacks(profile, w, w.fallbacks) && Survives(name, w)
  {
    var names := WithFallbacks(profile, w, w.fallbacks);
    DedupFacts(names);
    PromoteFacts(Dedup(names), w.preferred);
    SurvivorsAre(Promote(Dedup(names), w.preferred), w, name);
  }

  /** For every profile and target: no transport and no capability twice, TELNET only where
      insecure transports are allowed, HTTP only where insecure transports and insecure HTTP
      both are. */
  lemma ResolvedTransportsAreAllowed(profile: Option<Profile>, w: Wishes, entries: seq<Entry>)
    requires Names(entries) == ResolvedNames(profile, w)
    requires forall k | 0 <= k < |entries| :: CapabilityOf(entries[k].name) == Some(entries[k].capability)
    ensures forall i, j | 0 <= i < j < |entries| ::
      entries[i].name != entries[j].name && entries[i].capability != entries[j].capability
    ensures forall k | 0 <= k < |entries| && entries[k].capability.TELNET? :: w.allowInsecure
    ensures forall k | 0 <= k < |entries| && entries[k].capability.HTTP? :: w.allowInsecure && w.allowInsecureHttp
  {
    var names := WithFallbacks(profile, w, w.fallbacks);
    DedupFacts(names);
    PromoteFacts(Dedup(names), w.preferred);
    SurvivorsDistinct(Promote(Dedup(names), w.preferred), w);
    LowerCaseNames(profile, w, w.fallbacks);
    forall k | 0 <= k < |entries|
      ensures entries[k].name == NameOf(entries[k].capability)
      ensures entries[k].capability.TELNET? ==> w.allowInsecure
      ensures entries[k].capability.HTTP? ==> w.allowInsecure && w.allowInsecureHttp
    {
      var name := entries[k].name;
      assert Names(entries)[k] == name;
      ResolvedNamesAre(profile, w, name);
      CapabilityNames(name);
      NothingForbidden(profile, w, w.fallbacks, name);
    }
    forall i, j | 0 <= i < j < |entries| ensures entries[i].name != entries[j].name {
      assert Names(entries)[i] != Names(entries)[j];
    }
  }

  lemma {:induction false} SurvivorsOfRest(names: seq<string>, name: string, w: Wishes)
    ensures Survivors(Remove(names, name), w) ==
      if Survives(name, w) then Remove(Survivors(names, w), name) else Survivors(names, w)
  {
    if names != [] {
      assert names == [names[0]] + names[1..];
      SurvivorsCons(names[0], names[1..], w);
      if names[0] != name {
        SurvivorsOfRest(names[1..], name, w);
        SurvivorsCons(names[0], Remove(names[1..], name), w);
        RemoveCons(names[0], Survivors(names[1..], w), name);
      } else {
        RemoveCons(name, Survivors(names[1..], w), name);
      }
    }
  }

  lemma RemoveCons(first: string, rest: seq<string>, name: string)
    ensures Remove([first] + rest, name) == if first == name then rest else [first] + Remove(rest, name)
  {
    assert ([first] + rest)[1..] == rest;
  }

  lemma {:induction false} SurvivorsCons(first: string, rest: seq<string>, w: Wishes)
    ensures Survivors([first] + rest, w) ==
      if Survives(first, w) then [first] + Survivors(rest, w) else Survivors(rest, w)
  {
    var names := [first] + rest;
    if rest == [] {
      assert names[..0] == [];
    } else {
      assert names[..|names| - 1] == [first] + rest[..|rest| - 1];
      SurvivorsCons(first, rest[..|rest| - 1], w);
    }
  }

  /** Asking for a transport first moves it to the front, if it comes out at all, and
      changes neither what else comes out nor in which order. */
  lemma PreferenceOnlyPromotes(profile: Option<Profile>, w: Wishes)
    ensures ResolvedNames(profile, w) == Promote(ResolvedNames(profile, w.(preferred := None)), w.preferred)
  {
    var plain := w.(preferred := None);
    SameFallbacks(profile, w, w.fallbacks);
    var ordered := Dedup(WithFallbacks(profile, w, w.fallbacks));
    SameSurvivors(ordered, w);
    if w.preferred.Some? {
      var name := Lower(w.preferred.value);
      SurvivorsAre(ordered, w, name);
      if name in ordered {
        SurvivorsCons(name, Remove(ordered, name), w);
        SurvivorsOfRest(ordered, name, w);
      }
    }
  }

  lemma {:induction false} SameFallbacks(profile: Option<Profile>, w: Wishes, fallbacks: seq<string>)
    ensures WithFallbacks(profile, w, fallbacks) == WithFallbacks(profile, w.(preferred := None), fallbacks)
  {
    if fallbacks != [] { SameFallbacks(profile, w, fallbacks[..|fallbacks| - 1]); }
  }

  lemma {:induction false} SameSurvivors(names: seq<string>, w: Wishes)
    ensures Survivors(names, w) == Survivors(names, w.(preferred := None))
  {
    if names != [] { SameSurvivors(names[..|names| - 1], w); }
  }

  // ------------------------------------------------------------------ the order

  function LowerAll(names: seq<string>): (r: seq<string>)
    ensures |r| == |names|
  {
    seq(|names|, i requires 0 <= i < |names| => Lower(names[i]))
  }

  /** All that is offered, in order: the profile's types, or SSH if none of them can be used, and
      then the target's fallbacks. */
  ghost function Offered(profile: Option<Profile>, w: Wishes, fallbacks: seq<string>): seq<string> {
    BaseOffers(profile, w) + LowerAll(fallbacks)
  }

  ghost function BaseOffers(profile: Option<Profile>, w: Wishes): seq<string> {
    if profile.Some? && SomeAdmitted(TypesOf(profile.value), w) then LowerAll(TypesOf(profile.value)) else ["ssh"]
  }

  ghost predicate SomeAdmitted(types: seq<string>, w: Wishes) {
    exists i :: 0 <= i < |types| && Admitted(types[i], w.allowInsecure, w.allowInsecureHttp)
  }

  lemma LowerAllSnoc(front: seq<string>, last: string)
    ensures LowerAll(front + [last]) == LowerAll(front) + [Lower(last)]
  {
  }

  ghost predicate AllAdmitted(offers: seq<string>, names: seq<string>, w: Wishes) {
    && (forall n | n in names :: n in offers)
    && (forall n | n in offers && Admitted(n, w.allowInsecure, w.allowInsecureHttp) :: n in names)
  }

  /** A profile's admitted types keep the order in which the profile first names them. */
  lemma {:induction false} AdmittedInOrder(types: seq<string>, w: Wishes)
    ensures var names := Dedup(AdmittedNames(types, w.allowInsecure, w.allowInsecureHttp));
      InOrderOf(names, LowerAll(types)) && AllAdmitted(LowerAll(types), names, w)
  {
    if types != [] {
      var front, last := types[..|types| - 1], types[|types| - 1];
      AdmittedInOrder(front, w);
      assert types == front + [last];
      LowerAllSnoc(front, last);
      AdmittedLower(last, w.allowInsecure, w.allowInsecureHttp);
      var before := AdmittedNames(front, w.allowInsecure, w.allowInsecureHttp);
      OrderSnoc(Dedup(before), LowerAll(front), Lower(last));
      if Admitted(last, w.allowInsecure, w.allowInsecureHttp) {
        DedupOneMore(before, Lower(last));
      } else {
        assert before + [] == before;
      }
    }
  }

  lemma DedupOneMore(names: seq<string>, last: string)
    ensures Dedup(names + [last]) == if last in Dedup(names) then Dedup(names) else Dedup(names) + [last]
  {
    assert (names + [last])[..|names|] == names;
  }

  lemma BaseInOrder(profile: Option<Profile>, w: Wishes)
    ensures InOrderOf(BaseNames(profile, w), BaseOffers(profile, w)) && Distinct(BaseNames(profile, w))
    ensures AllAdmitted(BaseOffers(profile, w), BaseNames(profile, w), w)
  {
    assert Upper("ssh") == "SSH";
    if profile.Some? {
      var types := TypesOf(profile.value);
      var names := AdmittedNames(types, w.allowInsecure, w.allowInsecureHttp);
      AdmittedInOrder(types, w);
      DedupFacts(names);
      NoneAdmittedIff(types, w);
    }
  }

  lemma {:induction false} NoneAdmittedIff(types: seq<string>, w: Wishes)
    ensures Dedup(AdmittedNames(types, w.allowInsecure, w.allowInsecureHttp)) != [] <==> SomeAdmitted(types, w)
  {
    DedupFacts(AdmittedNames(types, w.allowInsecure, w.allowInsecureHttp));
    if types != [] {
      var front, last := types[..|types| - 1], types[|types| - 1];
      NoneAdmittedIff(front, w);
      DedupFacts(AdmittedNames(front, w.allowInsecure, w.allowInsecureHttp));
      AdmittedOneMore(front, last, w);
      assert types == front + [last];
    }
  }

  lemma AdmittedOneMore(front: seq<string>, last: string, w: Wishes)
    ensures SomeAdmitted(front + [last], w) <==>
      SomeAdmitted(front, w) || Admitted(last, w.allowInsecure, w.allowInsecureHttp)
  {
    var types := front + [last];
    assert types[|front|] == last;
    if i :| 0 <= i < |front| && Admitted(front[i], w.allowInsecure, w.allowInsecureHttp) { assert types[i] == front[i]; }
    if i :| 0 <= i < |types| && Admitted(types[i], w.allowInsecure, w.allowInsecureHttp) {
      assert i < |front| ==> types[i] == front[i];
    }
  }

  /** As InOrderOf, of the names that survive. */
  ghost predicate SurvivorsInOrder(names: seq<string>, w: Wishes, offers: seq<string>) {
    forall i, j | 0 <= i < j < |names| && Survives(names[i], w) && Survives(names[j], w) ::
      FirstIndex(offers, names[i]) < FirstIndex(offers, names[j])
  }

  /** Every eligible offer has been taken up. */
  ghost predicate TakenUp(profile: Option<Profile>, w: Wishes, fallbacks: seq<string>, names: seq<string>) {
    && AllAdmitted(BaseOffers(profile, w), BaseNames(profile, w), w)
    && (forall n | n in names :: n in Offered(profile, w, fallbacks))
    && (forall n | n in BaseNames(profile, w) :: n in names)
    && (forall n | n in LowerAll(fallbacks) && Eligible(profile, w, n) :: n in names)
  }

  /** A name that is taken up now and survives has not been offered before. */
  lemma NotOfferedBefore(profile: Option<Profile>, w: Wishes, fallbacks: seq<string>, names: seq<string>, name: string)
    requires TakenUp(profile, w, fallbacks, names)
    requires name !in names && Eligible(profile, w, name) && Survives(name, w) && Lower(name) == name
    ensures name !in Offered(profile, w, fallbacks)
  {
    if name in BaseOffers(profile, w) { CapabilityNames(name); }
  }

  lemma {:induction false} FallbacksInOrder(profile: Option<Profile>, w: Wishes, fallbacks: seq<string>)
    ensures var names := WithFallbacks(profile, w, fallbacks);
      && Distinct(names) && TakenUp(profile, w, fallbacks, names)
      && SurvivorsInOrder(names, w, Offered(profile, w, fallbacks))
  {
    if fallbacks == [] {
      BaseInOrder(profile, w);
      assert Offered(profile, w, []) == BaseOffers(profile, w);
    } else {
      var front, last := fallbacks[..|fallbacks| - 1], fallbacks[|fallbacks| - 1];
      FallbacksInOrder(profile, w, front);
      assert fallbacks == front + [last];
      LowerAllSnoc(front, last);
      assert Offered(profile, w, fallbacks) == Offered(profile, w, front) + [Lower(last)];
      CaseFacts(last);
      OneMoreFallback(profile, w, front, WithFallbacks(profile, w, front), Lower(last));
    }
  }

  lemma OneMoreFallback(profile: Option<Profile>, w: Wishes, front: seq<string>, names: seq<string>, last: string)
    requires Lower(last) == last && TakenUp(profile, w, front, names)
    requires SurvivorsInOrder(names, w, Offered(profile, w, front))
    ensures var names' := if last !in names && Eligible(profile, w, last) then names + [last] else names;
      SurvivorsInOrder(names', w, Offered(profile, w, front) + [last])
  {
    var offers := Offered(profile, w, front);
    var names' := if last !in names && Eligible(profile, w, last) then names + [last] else names;
    forall i, j | 0 <= i < j < |names'| && Survives(names'[i], w) && Survives(names'[j], w)
      ensures FirstIndex(offers + [last], names'[i]) < FirstIndex(offers + [last], names'[j])
    {
      FirstIndexSnoc(offers, last, names'[i]);
      FirstIndexSnoc(offers, last, names'[j]);
      assert names'[i] == names[i] && names[i] in names;
      if j == |names| { NotOfferedBefore(profile, w, front, names, last); } else { assert names[j] in names; }
    }
  }

  lemma {:induction false} SurvivorsKeepOrder(names: seq<string>, w: Wishes, offers: seq<string>)
    requires SurvivorsInOrder(names, w, offers)
    ensures InOrderOf(Survivors(names, w), offers)
  {
    if names != [] {
      var front, last := names[..|names| - 1], names[|names| - 1];
      SurvivorsKeepOrder(front, w, offers);
      var kept := Survivors(front, w);
      forall i | 0 <= i < |kept| && Survives(last, w) ensures FirstIndex(offers, kept[i]) < FirstIndex(offers, last) {
        assert kept[i] in kept;
        SurvivorsAre(front, w, kept[i]);
        var k :| 0 <= k < |front| && front[k] == kept[i];
        assert names[k] == kept[i];
      }
    }
  }

  /** Without a preference transports come out in the order in which they are first offered: by
      the profile, and then by the target's fallbacks. */
  lemma ResolvedInOrder(profile: Option<Profile>, w: Wishes)
    requires w.preferred.None?
    ensures InOrderOf(ResolvedNames(profile, w), Offered(profile, w, w.fallbacks))
    ensures forall n | n in ResolvedNames(profile, w) :: n in Offered(profile, w, w.fallbacks)
  {
    var names := WithFallbacks(profile, w, w.fallbacks);
    FallbacksInOrder(profile, w, w.fallbacks);
    DistinctStays(names);
    SurvivorsKeepOrder(names, w, Offered(profile, w, w.fallbacks));
    forall n | n in ResolvedNames(profile, w) ensures n in Offered(profile, w, w.fallbacks) { SurvivorsAre(names, w, n); }
  }

  // ------------------------------------------------------------ exactly which

  /** What a profile's types are admitted under. */
  lemma AdmittedIff(type_: string, allowInsecure: bool, allowInsecureHttp: bool)
    ensures Admitted(type_, allowInsecure, allowInsecureHttp) <==>
      || Lower(type_) in ["ssh", "snmp", "https"]
      || (Lower(type_) == "telnet" && allowInsecure)
      || (Lower(type_) == "http" && allowInsecureHttp)
  {
    LowerTypes(type_);
  }

  lemma LowerTypes(type_: string)
    ensures Lower(type_) == "ssh" <==> CapabilityOf(type_) == Some(SSH)
    ensures Lower(type_) == "snmp" <==> CapabilityOf(type_) == Some(SNMP)
    ensures Lower(type_) == "telnet" <==> CapabilityOf(type_) == Some(TELNET)
    ensures Lower(type_) == "http" <==> CapabilityOf(type_) == Some(HTTP)
    ensures Lower(type_) == "https" <==> CapabilityOf(type_) == Some(HTTPS)
  {
    CaseFacts(type_);
    CaseFacts(Lower(type_));
    if CapabilityOf(type_).Some? { CapabilityNames(Lower(type_)); }
    assert Upper("ssh") == "SSH" && Upper("snmp") == "SNMP" && Upper("telnet") == "TELNET";
    assert Upper("http") == "HTTP" && Upper("https") == "HTTPS";
  }

  /** What a target's two flags allow. */
  ghost predicate Usable(name: string, w: Wishes) {
    || name in ["ssh", "snmp", "https"]
    || (name == "telnet" && w.allowInsecure)
    || (name == "http" && w.allowInsecure && w.allowInsecureHttp)
  }

  lemma UsableIff(name: string, w: Wishes)
    requires Lower(name) == name
    ensures Usable(name, w) <==> Survives(name, w) && Admitted(name, w.allowInsecure, w.allowInsecureHttp)
  {
    AdmittedIff(name, w.allowInsecure, w.allowInsecureHttp);
    LowerTypes(name);
  }

  lemma UsableIsLower(name: string, w: Wishes)
    requires Usable(name, w)
    ensures Lower(name) == name
  {
    assert Lower("ssh") == "ssh" && Lower("snmp") == "snmp" && Lower("https") == "https";
    assert Lower("telnet") == "telnet" && Lower("http") == "http";
  }

  lemma {:induction false} FallbackNamesAre(profile: Option<Profile>, w: Wishes, fallbacks: seq<string>, name: string)
    ensures name in WithFallbacks(profile, w, fallbacks) <==>
      name in BaseNames(profile, w) || (name in LowerAll(fallbacks) && Eligible(profile, w, name))
  {
    if fallbacks != [] {
      var front, last := fallbacks[..|fallbacks| - 1], fallbacks[|fallbacks| - 1];
      FallbackNamesAre(profile, w, front, name);
      assert fallbacks == front + [last];
      LowerAllSnoc(front, last);
    }
  }

  lemma LowersToIff(types: seq<string>, name: string)
    ensures LowersTo(types, name) <==> name in LowerAll(types)
  {
    if i :| 0 <= i < |types| && Lower(types[i]) == name { assert LowerAll(types)[i] == name; }
  }

  /** A target's fallback is open only to what the profile offers too, if there is a profile. */
  ghost predicate OpenTo(profile: Option<Profile>, name: string) {
    profile.None? || name in LowerAll(profile.value.transportTypes)
  }

  /** Exactly the usable transports that the profile offers, or SSH if it offers none it may use,
      and of the fallbacks the usable ones that the profile offers too. */
  lemma ResolvedExactly(profile: Option<Profile>, w: Wishes, name: string)
    ensures name in ResolvedNames(profile, w) <==>
      && Usable(name, w)
      && (name in BaseOffers(profile, w) || (name in LowerAll(w.fallbacks) && OpenTo(profile, name)))
  {
    var names := WithFallbacks(profile, w, w.fallbacks);
    ResolvedNamesAre(profile, w, name);
    FallbackNamesAre(profile, w, w.fallbacks, name);
    BaseInOrder(profile, w);
    if profile.Some? { LowersToIff(profile.value.transportTypes, name); }
    if name in names && Survives(name, w) {
      LowerCaseNames(profile, w, w.fallbacks);
      NothingForbidden(profile, w, w.fallbacks, name);
      UsableIff(name, w);
    }
    if Usable(name, w) {
      UsableIsLower(name, w);
      UsableIff(name, w);
    }
  }

  lemma {:induction false} RemoveCuts(names: seq<string>, name: string)
    requires name in names
    ensures var k := FirstIndex(names, name); Remove(names, name) == names[..k] + names[k + 1..]
  {
    if names[0] != name {
      RemoveCuts(names[1..], name);
      var k := FirstIndex(names[1..], name);
      assert [names[0]] + (names[1..][..k] + names[1..][k + 1..]) == names[..k + 1] + names[k + 2..];
    }
  }

  /** The preferred transport is tried first, if it comes out at all; the others keep the order
      they have without the preference. */
  lemma PreferredComesFirst(profile: Option<Profile>, w: Wishes, name: string)
    requires w.preferred.Some? && name == Lower(w.preferred.value)
    ensures var r, plain := ResolvedNames(profile, w), ResolvedNames(profile, w.(preferred := None));
      && (name !in plain ==> r == plain)
      && (name in plain ==> r != [] && r[0] == name && |r| == |plain|)
      && (forall i, j | 0 <= i < j < |plain| && plain[i] != name && plain[j] != name ::
            FirstIndex(r, plain[i]) < FirstIndex(r, plain[j]) < |r|)
  {
    var r, plain := ResolvedNames(profile, w), ResolvedNames(profile, w.(preferred := None));
    PreferenceOnlyPromotes(profile, w);
    PlainIsDistinct(profile, w.(preferred := None));
    forall i: nat | i < |plain| ensures FirstIndex(plain, plain[i]) == i { FirstOfDistinct(plain, i); }
    if name in plain {
      RemoveCuts(plain, name);
      PromoteFacts(plain, w.preferred);
      PlacesAfterMove(plain, FirstIndex(plain, name), r);
      MovedToFront(plain, name, FirstIndex(plain, name), r);
    }
  }

  lemma PlainIsDistinct(profile: Option<Profile>, w: Wishes)
    requires w.preferred.None?
    ensures Distinct(ResolvedNames(profile, w))
  {
    DedupFacts(WithFallbacks(profile, w, w.fallbacks));
    SurvivorsDistinct(Dedup(WithFallbacks(profile, w, w.fallbacks)), w);
  }

  lemma PlacesAfterMove(plain: seq<string>, k: nat, r: seq<string>)
    requires k < |plain| && r == [plain[k]] + (plain[..k] + plain[k + 1..])
    ensures |r| == |plain|
    ensures forall i | 0 <= i < |plain| && i != k :: r[if i < k then i + 1 else i] == plain[i]
  {
  }

  lemma PlaceOrder(r: seq<string>, a: nat, b: nat)
    requires Distinct(r) && a < b < |r|
    ensures FirstIndex(r, r[a]) < FirstIndex(r, r[b]) < |r|
  {
    FirstOfDistinct(r, a);
    FirstOfDistinct(r, b);
  }

  lemma MovedToFront(plain: seq<string>, name: string, k: nat, r: seq<string>)
    requires Distinct(r) && |r| == |plain| && k < |plain| && plain[k] == name
    requires forall i | 0 <= i < |plain| && i != k :: r[if i < k then i + 1 else i] == plain[i]
    ensures forall i, j | 0 <= i < j < |plain| && plain[i] != name && plain[j] != name ::
      FirstIndex(r, plain[i]) < FirstIndex(r, plain[j]) < |r|
  {
    forall i, j | 0 <= i < j < |plain| && plain[i] != name && plain[j] != name
      ensures FirstIndex(r, plain[i]) < FirstIndex(r, plain[j]) < |r|
    {
      PlaceOrder(r, if i < k then i + 1 else i, if j < k then j + 1 else j);
    }
  }

  /** What an entry says of its transport: the capability its name stands for, whether that one is
      insecure, and whether the profile's type of credential can be used with it. */
  lemma EntriesMean(e: Entry, credentialType: Option<string>)
    requires Some(e) == EntryFor(e.name, credentialType) && Lower(e.name) == e.name
    ensures e.name == NameOf(e.capability) && !e.capability.ICMP?
    ensures e.isInsecure <==> e.capability in {TELNET, HTTP}
    ensures credentialType in {None, Some("")} ==> e.credentialCompatible
    ensures credentialType !in {None, Some("")} ==>
      (e.credentialCompatible <==> credentialType.value in CredentialsFor(e.capability))
  {
    CapabilityNames(e.name);
    NamesApart();
  }

  function CredentialsFor(c: Capability): set<string> {
    match c
    case SSH => {"ssh_password", "ssh_key"}
    case TELNET => {"ssh_password", "telnet_password"}
    case HTTP => {"ssh_password", "http_basic", "http_token"}
    case HTTPS => {"ssh_password", "http_basic", "http_token"}
    case SNMP => {"snmp_v2c", "snmp_v3"}
    case ICMP => {}
  }

  lemma NamesApart()
    ensures "ssh" != "snmp" && "ssh" != "telnet" && "ssh" != "http" && "ssh" != "https"
    ensures "snmp" != "telnet" && "snmp" != "http" && "snmp" != "https"
    ensures "telnet" != "http" && "telnet" != "https" && "http" != "https"
  {
    assert |"ssh"| == 3 && |"snmp"| == 4 && |"telnet"| == 6 && |"http"| == 4 && |"https"| == 5;
    assert "snmp"[0] != "http"[0];
  }

  // -------------------------------------------------------- when nothing is left

  /** A fallback for a profile is one of the profile's own types. */
  lemma {:induction false} FallbacksAreBase(profile: Option<Profile>, w: Wishes, fallbacks: seq<string>, name: string)
    requires name in WithFallbacks(profile, w, fallbacks) && profile.Some? && Survives(name, w)
    ensures name in BaseNames(profile, w)
  {
    if fallbacks == [] {
    } else if name in WithFallbacks(profile, w, fallbacks[..|fallbacks| - 1]) {
      FallbacksAreBase(profile, w, fallbacks[..|fallbacks| - 1], name);
    } else {
      CaseFacts(fallbacks[|fallbacks| - 1]);
      CapabilityNames(name);
      var types := profile.value.transportTypes;
      var i :| 0 <= i < |types| && Lower(types[i]) == name;
      AdmittedNamesAre(types, w.allowInsecure, w.allowInsecureHttp, name);
      DedupFacts(AdmittedNames(types, w.allowInsecure, w.allowInsecureHttp));
      assert name in ProfileNames(profile.value, w.allowInsecure, w.allowInsecureHttp);
    }
  }

  lemma {:induction false} BaseIsKept(profile: Option<Profile>, w: Wishes, fallbacks: seq<string>)
    ensures forall n | n in BaseNames(profile, w) :: n in WithFallbacks(profile, w, fallbacks)
  {
    if fallbacks != [] { BaseIsKept(profile, w, fallbacks[..|fallbacks| - 1]); }
  }

  /** A profile that offers plain HTTP and no transport that needs no permission, for a target
      that allows insecure HTTP but not insecure transports. */
  predicate OnlyPlainHttp(profile: Option<Profile>, w: Wishes) {
    && profile.Some? && w.allowInsecureHttp && !w.allowInsecure
    && Offers(profile.value, "http")
    && !Offers(profile.value, "ssh") && !Offers(profile.value, "snmp") && !Offers(profile.value, "https")
  }

  /** A policy comes out empty exactly for such a profile and target. */
  lemma EmptyPolicyIff(profile: Option<Profile>, w: Wishes)
    ensures ResolvedNames(profile, w) == [] <==> OnlyPlainHttp(profile, w)
  {
    EmptyIffHttpBase(profile, w);
    if profile.Some? && !w.allowInsecure { HttpBaseIff(profile.value, w); }
  }

  lemma LowersToOne(type_: string, name: string)
    requires Lower(type_) == type_
    ensures LowersTo([type_], name) <==> name == type_
  {
    assert [type_][0] == type_;
  }

  /** An input that comes out empty. */
  lemma PlainHttpProfileIsEmpty()
    ensures ResolvedNames(Some(Profile(None, ["http"], None)), Wishes(false, true, [], None)) == []
  {
    var profile, w := Profile(None, ["http"], None), Wishes(false, true, [], None);
    assert OnlyPlainHttp(Some(profile), w) by { PlainHttpOnly(); }
    EmptyPolicyIff(Some(profile), w);
  }

  lemma PlainHttpOnly()
    ensures OnlyPlainHttp(Some(Profile(None, ["http"], None)), Wishes(false, true, [], None))
  {
    assert Lower("http") == "http";
    LowersToOne("http", "http");
    LowersToOne("http", "ssh");
    LowersToOne("http", "snmp");
    LowersToOne("http", "https");
    assert "http" != "ssh" && "http" != "https" by { assert |"http"| == 4 && |"ssh"| == 3 && |"https"| == 5; }
    assert "http" != "snmp" by { assert "http"[0] == 'h' && "snmp"[0] == 's'; }
  }

  lemma AdmittedNamesAlone(name: string, allowInsecureHttp: bool)
    requires Lower(name) == name
    ensures Admitted(name, false, allowInsecureHttp) <==>
      name in ["ssh", "snmp", "https"] || (name == "http" && allowInsecureHttp)
  {
    assert Upper("ssh") == "SSH" && Upper("snmp") == "SNMP" && Upper("https") == "HTTPS" && Upper("http") == "HTTP";
    if CapabilityOf(name).Some? { CapabilityNames(name); }
  }

  lemma AdmittedNamesOffered(profile: Profile, allowInsecureHttp: bool, name: string)
    requires profile.transportTypes != []
    ensures name in ProfileNames(profile, false, allowInsecureHttp) <==>
      Offers(profile, name) && (name in ["ssh", "snmp", "https"] || (name == "http" && allowInsecureHttp))
  {
    DedupFacts(AdmittedNames(profile.transportTypes, false, allowInsecureHttp));
    AdmittedNamesAre(profile.transportTypes, false, allowInsecureHttp, name);
    if i :| 0 <= i < |profile.transportTypes| && Lower(profile.transportTypes[i]) == name {
      CaseFacts(profile.transportTypes[i]);
      AdmittedNamesAlone(name, allowInsecureHttp);
    }
  }

  lemma NamesOfNoTypes(w: Wishes)
    ensures AdmittedNames(["ssh"], w.allowInsecure, w.allowInsecureHttp) == ["ssh"]
  {
    assert Upper("ssh") == "SSH" && Lower("ssh") == "ssh";
    assert ["ssh"][..0] == [];
  }

  lemma HttpBaseIff(profile: Profile, w: Wishes)
    requires !w.allowInsecure
    ensures BaseNames(Some(profile), w) == ["http"] <==> OnlyPlainHttp(Some(profile), w)
  {
    var names := ProfileNames(profile, false, w.allowInsecureHttp);
    if profile.transportTypes == [] {
      NamesOfNoTypes(w);
      assert ["ssh"][..0] == [];
      assert names == ["ssh"];
    } else {
      DedupFacts(AdmittedNames(profile.transportTypes, false, w.allowInsecureHttp));
      AdmittedNamesOffered(profile, w.allowInsecureHttp, "http");
      AdmittedNamesOffered(profile, w.allowInsecureHttp, "ssh");
      AdmittedNamesOffered(profile, w.allowInsecureHttp, "snmp");
      AdmittedNamesOffered(profile, w.allowInsecureHttp, "https");
      forall n | n in names ensures n in ["ssh", "snmp", "https", "http"] {
        AdmittedNamesOffered(profile, w.allowInsecureHttp, n);
      }
      JustHttp(names);
    }
  }

  lemma JustHttp(names: seq<string>)
    requires Distinct(names) && forall n | n in names :: n in ["ssh", "snmp", "https", "http"]
    ensures names == ["http"] <==>
      "http" in names && "ssh" !in names && "snmp" !in names && "https" !in names
  {
    if "http" in names && "ssh" !in names && "snmp" !in names && "https" !in names {
      forall k | 0 <= k < |names| ensures names[k] == "http" {
        assert names[k] in names;
      }
      if |names| > 1 { TwoDiffer(names); }
    }
  }

  lemma EmptyIffHttpBase(profile: Option<Profile>, w: Wishes)
    ensures ResolvedNames(profile, w) == [] <==> BaseNames(profile, w) == ["http"] && !w.allowInsecure
  {
    BaseIsKept(profile, w, w.fallbacks);
    var base := BaseNames(profile, w);
    if ResolvedNames(profile, w) == [] {
      forall k | 0 <= k < |base| ensures base[k] == "http" && !w.allowInsecure {
        assert base[k] in base;
        BaseNamesAre(profile, w, base[k]);
        ResolvedNamesAre(profile, w, base[k]);
        CapabilityNames(base[k]);
      }
      assert base[0] == "http";
      if profile.Some? {
        DedupFacts(AdmittedNames(TypesOf(profile.value), w.allowInsecure, w.allowInsecureHttp));
      }
      if |base| > 1 { TwoDiffer(base); }
    } else if base == ["http"] && !w.allowInsecure {
      var name := ResolvedNames(profile, w)[0];
      ResolvedNamesAre(profile, w, name);
      OnlyHttpBase(profile, w, name);
    }
  }

  lemma TwoDiffer(names: seq<string>)
    requires |names| > 1 && Distinct(names)
    ensures exists k :: 0 <= k < |names| && names[k] != names[0]
  {
    assert names[1] != names[0];
  }

  lemma OnlyHttpBase(profile: Option<Profile>, w: Wishes, name: string)
    requires BaseNames(profile, w) == ["http"] && !w.allowInsecure
    requires name in WithFallbacks(profile, w, w.fallbacks)
    ensures !Survives(name, w)
  {
    assert profile.Some?;
    if Survives(name, w) { FallbacksAreBase(profile, w, w.fallbacks, name); }
    assert Upper("http") == "HTTP";
  }
}
