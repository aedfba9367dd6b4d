/** Comparing the service groups that Capella reports with those that a definition asks for. */
module ServiceGroups {
  import opened Bags
  import opened StringOrder
  import opened ClusterDef

  datatype Provider = Aws | Gcp | Azure | OtherProvider(name: string)

  datatype Compute = Compute(cpu: int, ram: int)

  datatype Disk = Disk(kind: string, storage: int, iops: int, autoExpansion: bool)

  datatype ServiceGroup = ServiceGroup(compute: Compute, disk: Disk, numOfNodes: int, services: seq<string>)

  const AZURE_ULTRA_DISK := "Ultra"

  /** GCP has no IOPS setting; Azure reads size and IOPS of Ultra disks only. */
  function NormalizeDisk(provider: Provider, disk: Disk): Disk {
    match provider
    case Gcp => disk.(iops := 0)
    case Azure => if disk.kind != AZURE_ULTRA_DISK then disk.(storage := 0, iops := 0) else disk
    case _ => disk
  }

  function ComparableDisk(provider: Provider, disk: Disk): Disk {
    NormalizeDisk(provider, disk).(autoExpansion := false)
  }

  predicate SameServices(a: seq<string>, b: seq<string>) {
    |a| == |b| && Sort(a) == Sort(b)
  }

  predicate Matches(provider: Provider, current: ServiceGroup, wanted: ServiceGroup) {
    && current.numOfNodes == wanted.numOfNodes
    && current.compute == wanted.compute
    && ComparableDisk(provider, current.disk) == ComparableDisk(provider, wanted.disk)
    && SameServices(current.services, wanted.services)
  }

  // ----- canonical groups -----

  /** Everything about a group that counts as a difference. */
  datatype Canonical = Canonical(numOfNodes: int, compute: Compute, disk: Disk, services: multiset<string>)

  function Canon(provider: Provider, g: ServiceGroup): Canonical {
    Canonical(g.numOfNodes, g.compute, ComparableDisk(provider, g.disk), multiset(g.services))
  }

  function CanonAll(provider: Provider, groups: seq<ServiceGroup>): (r: seq<Canonical>)
    ensures |r| == |groups| && forall i | 0 <= i < |r| :: r[i] == Canon(provider, groups[i])
  {
    seq(|groups|, i requires 0 <= i < |groups| => Canon(provider, groups[i]))
  }

  /** The field-by-field match is equality of canonical groups, so it is an equivalence. */
  lemma MatchesIsCanonEquality(provider: Provider, current: ServiceGroup, wanted: ServiceGroup)
    ensures Matches(provider, current, wanted) <==> Canon(provider, current) == Canon(provider, wanted)
  {
    SortIsCanonical(current.services, wanted.services);
    if multiset(current.services) == multiset(wanted.services) {
      assert |current.services| == |multiset(current.services)| == |wanted.services|;
    }
  }

  /** The disks agree in everything that the provider reads. */
  predicate SameDisk(provider: Provider, a: Disk, b: Disk) {
    && a.kind == b.kind
    && (a.storage == b.storage || (provider.Azure? && a.kind != "Ultra"))
    && (a.iops == b.iops || provider.Gcp? || (provider.Azure? && a.kind != "Ultra"))
  }

  /** What counts as a difference, field by field. */
  lemma CanonMeans(provider: Provider, a: ServiceGroup, b: ServiceGroup)
    ensures Canon(provider, a) == Canon(provider, b)
       <==> && a.numOfNodes == b.numOfNodes && a.compute == b.compute && SameDisk(provider, a.disk, b.disk)
            && multiset(a.services) == multiset(b.services)
  {
    var x, y := a.disk, b.disk;
    assert ComparableDisk(provider, x) == ComparableDisk(provider, y) <==> SameDisk(provider, x, y);
  }

  // ----- greedy multiset comparison -----

  /** The first unmatched current group that matches. */
  method FindUnmatched(provider: Provider, current: seq<ServiceGroup>, wanted: ServiceGroup, matched: array<bool>)
    returns (found: bool, at: nat)
    requires matched.Length == |current|
    ensures found ==> at < |current| && !matched[at] && Canon(provider, current[at]) == Canon(provider, wanted)
    ensures !found ==> forall i | 0 <= i < |current| && !matched[i] ::
            Canon(provider, current[i]) != Canon(provider, wanted)
  {
    at := 0;
    while at < |current|
      invariant at <= |current|
      invariant forall i | 0 <= i < at && !matched[i] :: Canon(provider, current[i]) != Canon(provider, wanted)
    {
      if !matched[at] {
        MatchesIsCanonEquality(provider, current[at], wanted);
        if Matches(provider, current[at], wanted) { return true, at; }
      }
      at := at + 1;
    }
    found := false;
  }

  lemma Prefix(s: seq<Canonical>, k: nat)
    requires k < |s|
    ensures multiset(s[..k + 1]) == multiset(s[..k]) + multiset{s[k]}
  {
    assert s[..k + 1] == s[..k] + [s[k]];
  }

  /** Marks the first unmatched current group that matches the wanted one. */
  method MarkMatch(provider: Provider, current: seq<ServiceGroup>, wanted: ServiceGroup, matched: array<bool>)
    returns (found: bool)
    requires matched.Length == |current|
    modifies matched
    ensures var have, c := CanonAll(provider, current), Canon(provider, wanted);
            if found then Marked(have, matched[..], true) == Marked(have, old(matched[..]), true) + multiset{c}
            else matched[..] == old(matched[..]) && forall i | 0 <= i < |have| && !matched[i] :: have[i] != c
  {
    var at;
    found, at := FindUnmatched(provider, current, wanted, matched);
    if found {
      MarkOne(CanonAll(provider, current), matched[..], at);
      matched[at] := true;
      assert matched[..] == old(matched[..])[at := true];
    }
  }

  /** The first k wanted groups are marked. */
  ghost predicate MarkedUpTo(have: seq<Canonical>, matched: seq<bool>, want: seq<Canonical>, k: nat) {
    k <= |want| && |have| == |matched| && Marked(have, matched, true) == multiset(want[..k])
  }

  /** Marks a group for the next wanted one, or finds that the groups differ. */
  method MarkNext(provider: Provider, current: seq<ServiceGroup>, wanted: seq<ServiceGroup>, k: nat,
                  matched: array<bool>)
    returns (found: bool)
    requires matched.Length == |current| && k < |wanted|
    requires MarkedUpTo(CanonAll(provider, current), matched[..], CanonAll(provider, wanted), k)
    modifies matched
    ensures found ==> MarkedUpTo(CanonAll(provider, current), matched[..], CanonAll(provider, wanted), k + 1)
    ensures !found ==> multiset(CanonAll(provider, current)) != multiset(CanonAll(provider, wanted))
  {
    ghost var have, want := CanonAll(provider, current), CanonAll(provider, wanted);
    Prefix(want, k);
    found := MarkMatch(provider, current, wanted[k], matched);
    if !found { NextIsMissing(have, matched[..], want, k); }
  }

  lemma NothingWanted(have: seq<Canonical>, matched: seq<bool>, want: seq<Canonical>)
    requires |have| == |matched| && Marked(have, matched, true) == multiset{}
    ensures MarkedUpTo(have, matched, want, 0)
  {
    assert want[..0] == [];
  }

  lemma EverythingMarked(have: seq<Canonical>, matched: seq<bool>, want: seq<Canonical>)
    requires MarkedUpTo(have, matched, want, |want|)
    ensures Marked(have, matched, true) == multiset(want)
  {
    assert want[..|want|] == want;
  }

  /** Marks a different current group for every wanted one, or finds that the groups differ. */
  method MarkAll(provider: Provider, current: seq<ServiceGroup>, wanted: seq<ServiceGroup>, matched: array<bool>)
    returns (all: bool)
    requires matched.Length == |current| && Marked(CanonAll(provider, current), matched[..], true) == multiset{}
    modifies matched
    ensures all ==> Marked(CanonAll(provider, current), matched[..], true) == multiset(CanonAll(provider, wanted))
    ensures !all ==> multiset(CanonAll(provider, current)) != multiset(CanonAll(provider, wanted))
  {
    ghost var have, want := CanonAll(provider, current), CanonAll(provider, wanted);
    NothingWanted(have, matched[..], want);
    for k := 0 to |wanted|
      invariant MarkedUpTo(have, matched[..], want, k)
    {
      all := MarkNext(provider, current, wanted, k, matched);
      if !all { return; }
    }
    EverythingMarked(have, matched[..], want);
    all := true;
  }

  /** Equal if and only if the canonical groups are the same multiset: the order of groups and of services,
      autoExpansion, and the disk fields that the provider ignores never count. */
  method ServiceGroupsEqual(provider: Provider, current: seq<ServiceGroup>, wanted: seq<ServiceGroup>)
    returns (equal: bool)
    ensures equal <==> multiset(CanonAll(provider, current)) == multiset(CanonAll(provider, wanted))
  {
    ghost var have, want := CanonAll(provider, current), CanonAll(provider, wanted);
    if |current| != |wanted| {
      DifferentLengths(have, want);
      return false;
    }
    var matched := new bool[|current|](_ => false);
    NoneMarked(have, matched[..]);
    equal := MarkAll(provider, current, wanted, matched);
    if equal { AllFound(have, matched[..], want); }
  }

  // ----- definitions -----

  datatype CloudGroup = CloudGroup(
    count: int, services: seq<Service>, instanceType: string, serverImage: string,
    cpu: int, memory: int, diskType: string, diskSize: int, diskIops: int)

  datatype Defaults = Defaults(compute: Compute, disk: Disk)

  datatype Built = Accepted(groups: seq<ServiceGroup>) | Rejected

  function DefaultsFor(provider: Provider): Defaults
    requires !provider.OtherProvider?
  {
    match provider
    case Aws => Defaults(Compute(4, 16), Disk("gp3", 50, 3000, false))
    case Gcp => Defaults(Compute(4, 16), Disk("pd-ssd", 50, 0, false))
    case Azure => Defaults(Compute(4, 16), Disk("P6", 64, 240, false))
  }

  /** The Capella name of a service; "" for the services that it does not offer. */
  function CapellaName(s: Service): string {
    if s == KV_SERVICE then "data"
    else if s == QUERY_SERVICE then "query"
    else if s == INDEX_SERVICE then "index"
    else if s == SEARCH_SERVICE then "search"
    else if s == EVENTING_SERVICE then "eventing"
    else if s == ANALYTICS_SERVICE then "analytics"
    else ""
  }

  predicate Offered(s: Service) {
    CapellaName(s) != ""
  }

  lemma CapellaNameInjective(a: Service, b: Service)
    requires Offered(a) && Offered(b) && CapellaName(a) == CapellaName(b)
    ensures a == b
  {
  }

  function CapellaNames(services: seq<Service>): (r: seq<string>)
    ensures |r| == |services| && forall i | 0 <= i < |r| :: r[i] == CapellaName(services[i])
  {
    seq(|services|, i requires 0 <= i < |services| => CapellaName(services[i]))
  }

  function OrElse(value: int, fallback: int): int {
    if value != 0 then value else fallback
  }

  function ChosenServices(g: CloudGroup): seq<Service> {
    if |g.services| > 0 then g.services else DEFAULT_SERVICES
  }

  function EffectiveCompute(provider: Provider, g: CloudGroup): Compute
    requires !provider.OtherProvider?
  {
    var d := DefaultsFor(provider).compute;
    Compute(OrElse(g.cpu, d.cpu), OrElse(g.memory, d.ram))
  }

  function EffectiveDisk(provider: Provider, g: CloudGroup): Disk
    requires !provider.OtherProvider?
  {
    var d := DefaultsFor(provider).disk;
    Disk(if g.diskType != "" then g.diskType else d.kind, OrElse(g.diskSize, d.storage), OrElse(g.diskIops, d.iops),
         false)
  }

  predicate Acceptable(g: CloudGroup) {
    !(g.instanceType != "" && g.serverImage == "") && forall s | s in ChosenServices(g) :: Offered(s)
  }

  function BuildGroup(provider: Provider, g: CloudGroup): ServiceGroup
    requires !provider.OtherProvider?
  {
    ServiceGroup(EffectiveCompute(provider, g), NormalizeDisk(provider, EffectiveDisk(provider, g)), g.count,
                 CapellaNames(ChosenServices(g)))
  }

  /** One group per definition entry, in order. */
  function BuildAll(provider: Provider, definition: seq<CloudGroup>): (r: seq<ServiceGroup>)
    requires !provider.OtherProvider?
    ensures |r| == |definition|
  {
    if definition == [] then []
    else BuildAll(provider, definition[..|definition| - 1]) + [BuildGroup(provider, definition[|definition| - 1])]
  }

  predicate AllAcceptable(definition: seq<CloudGroup>) {
    definition == [] || (AllAcceptable(definition[..|definition| - 1]) && Acceptable(definition[|definition| - 1]))
  }

  /** An unacceptable entry anywhere spoils the definition. */
  lemma {:induction false} AllAcceptableUpTo(definition: seq<CloudGroup>, k: nat)
    requires k <= |definition| && AllAcceptable(definition)
    ensures AllAcceptable(definition[..k])
  {
    var n := |definition| - 1;
    if k <= n {
      AllAcceptableUpTo(definition[..n], k);
      assert definition[..n][..k] == definition[..k];
    } else {
      assert definition[..k] == definition;
    }
  }

  lemma BuildNext(provider: Provider, definition: seq<CloudGroup>, i: nat)
    requires !provider.OtherProvider? && i < |definition|
    ensures BuildAll(provider, definition[..i + 1])
            == BuildAll(provider, definition[..i]) + [BuildGroup(provider, definition[i])]
    ensures AllAcceptable(definition[..i + 1]) <==> AllAcceptable(definition[..i]) && Acceptable(definition[i])
    ensures AllAcceptable(definition) ==> AllAcceptable(definition[..i + 1])
  {
    assert definition[..i + 1][..i] == definition[..i];
    if AllAcceptable(definition) { AllAcceptableUpTo(definition, i + 1); }
  }

  // ----- what a definition is built into -----

  /** An entry that is accepted: no instance type without a server image, and only services that Capella offers. */
  ghost predicate Admissible(g: CloudGroup) {
    && (g.instanceType == "" || g.serverImage != "")
    && forall s | s in g.services :: s in ["kv", "n1ql", "index", "fts", "eventing", "cbas"]
  }

  /** The settings of an entry, or the provider's defaults; what the provider does not read is left out. */
  ghost predicate DiskOf(provider: Provider, g: CloudGroup, d: Disk) {
    && !d.autoExpansion && (g.diskType != "" ==> d.kind == g.diskType)
    && match provider
       case Aws =>
         && (g.diskType == "" ==> d.kind == "gp3")
         && d.storage == (if g.diskSize != 0 then g.diskSize else 50)
         && d.iops == if g.diskIops != 0 then g.diskIops else 3000
       case Gcp =>
         && (g.diskType == "" ==> d.kind == "pd-ssd")
         && d.storage == (if g.diskSize != 0 then g.diskSize else 50) && d.iops == 0
       case Azure =>
         && (g.diskType == "" ==> d.kind == "P6")
         && d.storage == (if g.diskType != "Ultra" then 0 else if g.diskSize != 0 then g.diskSize else 64)
         && d.iops == if g.diskType != "Ultra" then 0 else if g.diskIops != 0 then g.diskIops else 240
       case _ => false
  }

  ghost predicate NameOf(s: Service, name: string) {
    (s, name) in [("kv", "data"), ("n1ql", "query"), ("index", "index"), ("fts", "search"), ("eventing", "eventing"),
                  ("cbas", "analytics")]
  }

  /** The services of an entry under their Capella names, in order, or the default ones. */
  ghost predicate NamesOf(g: CloudGroup, names: seq<string>) {
    if g.services == [] then names == ["data", "index", "query", "search"]
    else |names| == |g.services| && forall i | 0 <= i < |names| :: NameOf(g.services[i], names[i])
  }

  /** The group that an entry stands for. */
  ghost predicate StandsFor(provider: Provider, g: CloudGroup, group: ServiceGroup) {
    && group.numOfNodes == g.count
    && group.compute == Compute(if g.cpu != 0 then g.cpu else 4, if g.memory != 0 then g.memory else 16)
    && DiskOf(provider, g, group.disk) && NamesOf(g, group.services)
  }

  lemma DefaultsAreOffered()
    ensures forall s | s in DEFAULT_SERVICES :: Offered(s)
    ensures CapellaNames(DEFAULT_SERVICES) == ["data", "index", "query", "search"]
  {
  }

  lemma AcceptableMeans(g: CloudGroup)
    ensures Acceptable(g) <==> Admissible(g)
  {
    DefaultsAreOffered();
    assert forall s: Service :: Offered(s) <==> s in ["kv", "n1ql", "index", "fts", "eventing", "cbas"];
  }

  lemma OfferedName(s: Service)
    requires Offered(s)
    ensures NameOf(s, CapellaName(s))
  {
  }

  lemma BuildMeans(provider: Provider, g: CloudGroup)
    requires !provider.OtherProvider? && Acceptable(g)
    ensures StandsFor(provider, g, BuildGroup(provider, g))
  {
    var group := BuildGroup(provider, g);
    assert DiskOf(provider, g, group.disk);
    DefaultsAreOffered();
    if g.services != [] {
      forall i | 0 <= i < |g.services| ensures NameOf(g.services[i], group.services[i]) {
        assert g.services[i] in g.services;
        OfferedName(g.services[i]);
      }
    }
  }

  /** Accepted definitions, entry by entry, and what they are built into. */
  lemma {:induction false} BuiltMeans(provider: Provider, definition: seq<CloudGroup>)
    ensures AllAcceptable(definition) <==> forall g | g in definition :: Admissible(g)
    ensures !provider.OtherProvider? && AllAcceptable(definition) ==>
              forall i | 0 <= i < |definition| :: StandsFor(provider, definition[i], BuildAll(provider, definition)[i])
  {
    if definition != [] {
      var k := |definition| - 1;
      BuiltMeans(provider, definition[..k]);
      AcceptableMeans(definition[k]);
      assert definition == definition[..k] + [definition[k]];
      if !provider.OtherProvider? && AllAcceptable(definition) { BuildMeans(provider, definition[k]); }
    }
  }

  method TranslateServices(services: seq<Service>) returns (ok: bool, names: seq<string>)
    ensures ok <==> forall s | s in services :: Offered(s)
    ensures ok ==> names == CapellaNames(services)
  {
    names := [];
    for i := 0 to |services|
      invariant |names| == i && forall j | 0 <= j < i :: names[j] == CapellaName(services[j])
      invariant forall j | 0 <= j < i :: Offered(services[j])
    {
      var name := CapellaName(services[i]);
      if name == "" { assert !Offered(services[i]) && services[i] in services; return false, names; }
      names := names + [name];
    }
    ok := true;
  }

  method BuildOne(provider: Provider, g: CloudGroup) returns (ok: bool, group: ServiceGroup)
    requires !provider.OtherProvider?
    ensures ok <==> Acceptable(g)
    ensures ok ==> group == BuildGroup(provider, g)
  {
    group := ServiceGroup(EffectiveCompute(provider, g), NormalizeDisk(provider, EffectiveDisk(provider, g)), g.count,
                          []);
    if g.instanceType != "" && g.serverImage == "" { return false, group; }
    var names;
    ok, names := TranslateServices(ChosenServices(g));
    group := group.(services := names);
  }

  /** Accepted exactly when the provider is known and every group is acceptable; one group per definition entry, in
      order, with its settings or the provider's defaults. */
  method BuildServiceGroups(provider: Provider, definition: seq<CloudGroup>) returns (r: Built)
    ensures r.Accepted? <==> !provider.OtherProvider? && forall g | g in definition :: Admissible(g)
    ensures r.Accepted? ==> |r.groups| == |definition|
                            && forall i | 0 <= i < |definition| :: StandsFor(provider, definition[i], r.groups[i])
    ensures r.Accepted? ==> r.groups == BuildAll(provider, definition)
  {
    if provider.OtherProvider? { return Rejected; }
    BuiltMeans(provider, definition);
    r := BuildKnown(provider, definition);
  }

  method BuildKnown(provider: Provider, definition: seq<CloudGroup>) returns (r: Built)
    requires !provider.OtherProvider?
    ensures r.Accepted? <==> AllAcceptable(definition)
    ensures r.Accepted? ==> r.groups == BuildAll(provider, definition)
  {
    var groups: seq<ServiceGroup> := [];
    for i := 0 to |definition|
      invariant AllAcceptable(definition[..i]) && groups == BuildAll(provider, definition[..i])
    {
      var ok, group := BuildOne(provider, definition[i]);
      BuildNext(provider, definition, i);
      if !ok { return Rejected; }
      groups := groups + [group];
    }
    assert definition[..|definition|] == definition;
    r := Accepted(groups);
  }

  // ----- re-applying a definition -----

  /** A report that says the same as a built group up to what Capella is free to change. */
  ghost predicate Reports(provider: Provider, reported: ServiceGroup, built: ServiceGroup) {
    && reported.numOfNodes == built.numOfNodes && reported.compute == built.compute
    && multiset(reported.services) == multiset(built.services)
    && SameDisk(provider, reported.disk, built.disk)
  }

  lemma ReportIsCanonical(provider: Provider, reported: ServiceGroup, built: ServiceGroup)
    requires Reports(provider, reported, built)
    ensures Canon(provider, reported) == Canon(provider, built)
  {
    CanonMeans(provider, reported, built);
  }

  /** Any report of the built groups, in any order, has the same canonical groups: re-applying a definition changes
      nothing. `order` says which built group each reported one stands for. */
  lemma ReapplyIsNoOp(provider: Provider, reported: seq<ServiceGroup>, built: seq<ServiceGroup>, order: seq<nat>)
    requires |reported| == |order| && IsPermutation(order, |built|)
    requires forall i | 0 <= i < |order| :: order[i] < |built| && Reports(provider, reported[i], built[order[i]])
    ensures multiset(CanonAll(provider, reported)) == multiset(CanonAll(provider, built))
  {
    var canons := CanonAll(provider, built);
    forall i | 0 <= i < |order| ensures Canon(provider, reported[i]) == canons[order[i]] {
      ReportIsCanonical(provider, reported[i], built[order[i]]);
    }
    assert CanonAll(provider, reported) == Pick(canons, order);
    PermutedBag(canons, order);
  }

  // ----- every change that a definition can express is seen -----

  /** Offered services have different names, so lists of services and lists of names differ together. */
  lemma NamesKeepBags(a: seq<Service>, b: seq<Service>)
    requires (forall s | s in a :: Offered(s)) && (forall s | s in b :: Offered(s))
    ensures multiset(CapellaNames(a)) == multiset(CapellaNames(b)) <==> multiset(a) == multiset(b)
  {
    var x, y := CapellaNames(a), CapellaNames(b);
    forall i, j | 0 <= i < |a| && 0 <= j < |b| && x[i] == y[j] ensures a[i] == b[j] {
      assert a[i] in a && b[j] in b;
      CapellaNameInjective(a[i], b[j]);
    }
    if multiset(x) == multiset(y) { BagsFromImages(a, b, x, y); }
    if multiset(a) == multiset(b) { BagsFromImages(x, y, a, b); }
  }

  /** The same setting, where leaving it out asks for the default. */
  ghost predicate Agree(a: int, b: int, fallback: int) {
    a == b || (a == 0 && b == fallback) || (a == fallback && b == 0)
  }

  ghost predicate AgreeOnText(a: string, b: string, fallback: string) {
    a == b || (a == "" && b == fallback) || (a == fallback && b == "")
  }

  /** The entries ask for the same disk, as far as the provider reads it. */
  ghost predicate AgreeOnDisk(provider: Provider, a: CloudGroup, b: CloudGroup) {
    match provider
    case Aws => AgreeOnText(a.diskType, b.diskType, "gp3") && Agree(a.diskSize, b.diskSize, 50)
                && Agree(a.diskIops, b.diskIops, 3000)
    case Gcp => AgreeOnText(a.diskType, b.diskType, "pd-ssd") && Agree(a.diskSize, b.diskSize, 50)
    case Azure =>
      && AgreeOnText(a.diskType, b.diskType, "P6")
      && (a.diskType == "Ultra" ==> Agree(a.diskSize, b.diskSize, 64) && Agree(a.diskIops, b.diskIops, 240))
    case _ => false
  }

  ghost predicate AgreeOnServices(a: seq<Service>, b: seq<Service>) {
    || multiset(a) == multiset(b)
    || (a == [] && multiset(b) == multiset{"kv", "index", "n1ql", "fts"})
    || (b == [] && multiset(a) == multiset{"kv", "index", "n1ql", "fts"})
  }

  lemma ChosenAgree(a: CloudGroup, b: CloudGroup)
    ensures multiset(ChosenServices(a)) == multiset(ChosenServices(b)) <==> AgreeOnServices(a.services, b.services)
  {
    var x, y := a.services, b.services;
    assert DEFAULT_SERVICES == ["kv", "index", "n1ql", "fts"];
    assert multiset(DEFAULT_SERVICES) == multiset{"kv", "index", "n1ql", "fts"};
    assert x != [] ==> x[0] in multiset(x);
    assert y != [] ==> y[0] in multiset(y);
  }

  lemma DisksAgree(provider: Provider, a: CloudGroup, b: CloudGroup)
    requires !provider.OtherProvider?
    ensures SameDisk(provider, BuildGroup(provider, a).disk, BuildGroup(provider, b).disk)
            <==> AgreeOnDisk(provider, a, b)
  {
  }

  lemma ComputesAgree(provider: Provider, a: CloudGroup, b: CloudGroup)
    requires !provider.OtherProvider?
    ensures BuildGroup(provider, a).compute == BuildGroup(provider, b).compute
            <==> Agree(a.cpu, b.cpu, 4) && Agree(a.memory, b.memory, 16)
  {
  }

  /** Two definition entries build groups that compare equal if and only if they ask for the same number of nodes, cpu,
      memory, services, disk type and - as far as the provider reads them - disk size and iops; leaving a setting out
      is asking for its default. */
  lemma ChangesAreSeen(provider: Provider, a: CloudGroup, b: CloudGroup)
    requires !provider.OtherProvider? && Acceptable(a) && Acceptable(b)
    ensures Canon(provider, BuildGroup(provider, a)) == Canon(provider, BuildGroup(provider, b))
       <==> && a.count == b.count && Agree(a.cpu, b.cpu, 4) && Agree(a.memory, b.memory, 16)
            && AgreeOnDisk(provider, a, b) && AgreeOnServices(a.services, b.services)
  {
    var x, y := BuildGroup(provider, a), BuildGroup(provider, b);
    CanonMeans(provider, x, y);
    DisksAgree(provider, a, b);
    ComputesAgree(provider, a, b);
    NamesKeepBags(ChosenServices(a), ChosenServices(b));
    ChosenAgree(a, b);
  }
}
