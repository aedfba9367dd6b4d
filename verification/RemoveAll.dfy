/** Removing every cluster and then every project that is known to be empty. */
module RemoveAll {
  import opened Options

  type ProjectId = string
  type ClusterId = string

  /** `underlying` is the cloud cluster behind a columnar instance. */
  datatype Target = Target(project: ProjectId, cluster: ClusterId, underlying: string, columnar: bool)

  /** How the service answers the calls of one run. Every call has an answer of its own, known by the position of the
      project in the listing, of the instance in its project's listing, or of the target among the targets. */
  datatype Service = Service(
    projects: Option<seq<ProjectId>>,
    clusters: nat -> Option<seq<ClusterId>>,
    columnars: nat -> Option<seq<ClusterId>>,
    detail: (nat, nat) -> Option<string>,
    deleteWorks: nat -> bool,
    waitWorks: nat -> bool,
    deleteProjectWorks: nat -> bool)

  datatype Call = DeleteCluster(target: Target) | AwaitDeletion(target: Target) | DeleteProject(project: ProjectId)

  // ----- what should happen -----

  function Plain(p: ProjectId, ids: seq<ClusterId>): seq<Target> {
    if ids == [] then [] else Plain(p, ids[..|ids| - 1]) + [Target(p, ids[|ids| - 1], "", false)]
  }

  /** The columnar instances of project i whose detail could be looked up. */
  function Detailed(s: Service, i: nat, p: ProjectId, ids: seq<ClusterId>): seq<Target> {
    if ids == [] then []
    else
      var k := |ids| - 1;
      Detailed(s, i, p, ids[..k]) + if s.detail(i, k).Some? then [Target(p, ids[k], s.detail(i, k).value, true)] else []
  }

  /** What is found in project i. The columnar listing is only reached if the first one succeeds. */
  function Found(s: Service, i: nat, p: ProjectId): seq<Target> {
    if s.clusters(i).None? then []
    else Plain(p, s.clusters(i).value) + if s.columnars(i).None? then [] else Detailed(s, i, p, s.columnars(i).value)
  }

  function AllFound(s: Service, projects: seq<ProjectId>): seq<Target> {
    if projects == [] then []
    else
      var k := |projects| - 1;
      AllFound(s, projects[..k]) + Found(s, k, projects[k])
  }

  /** Both listings of project i succeeded, and so did the detail lookup of each columnar instance. */
  ghost predicate Inspected(s: Service, i: nat) {
    && s.clusters(i).Some? && s.columnars(i).Some?
    && forall k | 0 <= k < |s.columnars(i).value| :: s.detail(i, k).Some?
  }

  /** The project was inspected wherever it was listed. */
  ghost predicate Known(s: Service, projects: seq<ProjectId>, p: ProjectId) {
    forall i | 0 <= i < |projects| && projects[i] == p :: Inspected(s, i)
  }

  /** Every cluster found in the project was deleted, and waiting for its deletion succeeded. */
  ghost predicate Cleared(s: Service, targets: seq<Target>, p: ProjectId) {
    forall k | 0 <= k < |targets| && targets[k].project == p :: s.deleteWorks(k) && s.waitWorks(k)
  }

  /** Everything in the project is known and known to be gone. */
  ghost predicate Emptied(s: Service, projects: seq<ProjectId>, p: ProjectId) {
    Known(s, projects, p) && Cleared(s, AllFound(s, projects), p)
  }

  // ----- what is listed -----

  /** A cluster of project i. */
  ghost predicate IsPlain(s: Service, i: nat, p: ProjectId, t: Target) {
    t.project == p && !t.columnar && t.underlying == "" && s.clusters(i).Some? && t.cluster in s.clusters(i).value
  }

  /** A columnar instance of project i, deleted by its own id; its detail tells the cloud cluster behind it. The
      columnar instances are not even listed if the clusters cannot be. */
  ghost predicate IsColumnarInstance(s: Service, i: nat, p: ProjectId, t: Target) {
    && t.project == p && t.columnar && s.clusters(i).Some? && s.columnars(i).Some?
    && exists k :: && 0 <= k < |s.columnars(i).value|
                   && s.columnars(i).value[k] == t.cluster && s.detail(i, k) == Some(t.underlying)
  }

  ghost predicate ListedIn(s: Service, i: nat, p: ProjectId, t: Target) {
    IsPlain(s, i, p, t) || IsColumnarInstance(s, i, p, t)
  }

  ghost predicate IsListed(s: Service, projects: seq<ProjectId>, t: Target) {
    exists i :: 0 <= i < |projects| && ListedIn(s, i, projects[i], t)
  }

  lemma {:induction false} PlainMeans(p: ProjectId, ids: seq<ClusterId>)
    ensures |Plain(p, ids)| == |ids| && forall k | 0 <= k < |ids| :: Plain(p, ids)[k] == Target(p, ids[k], "", false)
  {
    if ids != [] { PlainMeans(p, ids[..|ids| - 1]); }
  }

  lemma {:induction false} DetailedMeans(s: Service, i: nat, p: ProjectId, ids: seq<ClusterId>, t: Target)
    ensures t in Detailed(s, i, p, ids)
            <==> && t.project == p && t.columnar
                 && exists k :: 0 <= k < |ids| && ids[k] == t.cluster && s.detail(i, k) == Some(t.underlying)
  {
    if ids != [] {
      var k := |ids| - 1;
      DetailedMeans(s, i, p, ids[..k], t);
      if t in Detailed(s, i, p, ids[..k]) {
        var j :| 0 <= j < k && ids[..k][j] == t.cluster && s.detail(i, j) == Some(t.underlying);
        assert ids[j] == t.cluster;
      }
      if j :| 0 <= j < k && ids[j] == t.cluster && s.detail(i, j) == Some(t.underlying) {
        assert ids[..k][j] == t.cluster;
      }
    }
  }

  /** What one project contributes to the targets. */
  lemma ProjectMeans(s: Service, i: nat, p: ProjectId, t: Target)
    ensures t in Found(s, i, p) <==> ListedIn(s, i, p, t)
  {
    if s.clusters(i).Some? {
      var ids := s.clusters(i).value;
      PlainMeans(p, ids);
      if t.cluster in ids {
        var k :| 0 <= k < |ids| && ids[k] == t.cluster;
        assert Plain(p, ids)[k] == Target(p, t.cluster, "", false);
      }
      if s.columnars(i).Some? { DetailedMeans(s, i, p, s.columnars(i).value, t); }
    }
  }

  lemma ListedNext(s: Service, projects: seq<ProjectId>, t: Target)
    requires projects != []
    ensures var k := |projects| - 1;
            IsListed(s, projects, t) <==> IsListed(s, projects[..k], t) || ListedIn(s, k, projects[k], t)
  {
    var k := |projects| - 1;
    if IsListed(s, projects, t) && !ListedIn(s, k, projects[k], t) {
      var i :| 0 <= i < |projects| && ListedIn(s, i, projects[i], t);
      assert projects[..k][i] == projects[i];
    }
    if IsListed(s, projects[..k], t) {
      var i :| 0 <= i < k && ListedIn(s, i, projects[..k][i], t);
      assert projects[..k][i] == projects[i];
    }
  }

  /** What all projects contribute. */
  lemma {:induction false} FoundMeans(s: Service, projects: seq<ProjectId>, t: Target)
    ensures t in AllFound(s, projects) <==> IsListed(s, projects, t)
  {
    if projects != [] {
      var k := |projects| - 1;
      FoundMeans(s, projects[..k], t);
      ProjectMeans(s, k, projects[k], t);
      ListedNext(s, projects, t);
    }
  }

  /** Where everything could be listed, the clusters come first, then the columnar instances, each once and in order. */
  lemma FoundInOrder(s: Service, i: nat, p: ProjectId) returns (plain: seq<Target>, detailed: seq<Target>)
    requires s.clusters(i).Some? && s.columnars(i).Some?
    requires forall k | 0 <= k < |s.columnars(i).value| :: s.detail(i, k).Some?
    ensures Found(s, i, p) == plain + detailed
    ensures |plain| == |s.clusters(i).value| && |detailed| == |s.columnars(i).value|
    ensures forall k | 0 <= k < |plain| :: plain[k] == Target(p, s.clusters(i).value[k], "", false)
    ensures forall k | 0 <= k < |detailed| ::
              detailed[k] == Target(p, s.columnars(i).value[k], s.detail(i, k).value, true)
  {
    plain, detailed := Plain(p, s.clusters(i).value), Detailed(s, i, p, s.columnars(i).value);
    PlainMeans(p, s.clusters(i).value);
    AllDetailed(s, i, p, s.columnars(i).value);
  }

  lemma {:induction false} AllDetailed(s: Service, i: nat, p: ProjectId, ids: seq<ClusterId>)
    requires forall k | 0 <= k < |ids| :: s.detail(i, k).Some?
    ensures |Detailed(s, i, p, ids)| == |ids|
    ensures forall k | 0 <= k < |ids| :: Detailed(s, i, p, ids)[k] == Target(p, ids[k], s.detail(i, k).value, true)
  {
    if ids != [] { AllDetailed(s, i, p, ids[..|ids| - 1]); }
  }

  // ----- the phases -----

  /** One project's share of the first phase. */
  method FindTargets(s: Service, i: nat, p: ProjectId) returns (targets: seq<Target>, failed: bool)
    ensures targets == Found(s, i, p) && (failed <==> !Inspected(s, i))
    ensures forall t :: t in targets <==> ListedIn(s, i, p, t)
  {
    targets, failed := [], false;
    forall t ensures t in Found(s, i, p) <==> ListedIn(s, i, p, t) {
      ProjectMeans(s, i, p, t);
    }
    var clusters := s.clusters(i);
    if clusters.None? { return [], true; }
    for k := 0 to |clusters.value|
      invariant targets == Plain(p, clusters.value[..k])
    {
      assert clusters.value[..k + 1][..k] == clusters.value[..k];
      targets := targets + [Target(p, clusters.value[k], "", false)];
    }
    assert clusters.value[..|clusters.value|] == clusters.value;
    var columnars := s.columnars(i);
    if columnars.None? { return targets, true; }
    var detailed;
    detailed, failed := FindColumnars(s, i, p, columnars.value);
    targets := targets + detailed;
  }

  method FindColumnars(s: Service, i: nat, p: ProjectId, ids: seq<ClusterId>)
    returns (targets: seq<Target>, failed: bool)
    ensures targets == Detailed(s, i, p, ids)
    ensures failed <==> exists k :: 0 <= k < |ids| && s.detail(i, k).None?
  {
    targets, failed := [], false;
    for k := 0 to |ids|
      invariant targets == Detailed(s, i, p, ids[..k])
      invariant failed <==> exists j :: 0 <= j < k && s.detail(i, j).None?
    {
      assert ids[..k + 1][..k] == ids[..k];
      var detail := s.detail(i, k);
      if detail.None? {
        failed := true;
      } else {
        targets := targets + [Target(p, ids[k], detail.value, true)];
      }
    }
    assert ids[..|ids|] == ids;
  }

  /** Exactly the projects are marked that were not inspected somewhere among the first n. */
  ghost predicate Marked(s: Service, projects: seq<ProjectId>, n: nat, failed: set<ProjectId>)
    requires n <= |projects|
  {
    forall p :: p in failed <==> exists j :: 0 <= j < n && projects[j] == p && !Inspected(s, j)
  }

  lemma MarkNext(s: Service, projects: seq<ProjectId>, n: nat, failed: set<ProjectId>)
    requires n < |projects| && Marked(s, projects, n, failed)
    ensures Marked(s, projects, n + 1, if Inspected(s, n) then failed else failed + {projects[n]})
  {
  }

  method FindAllTargets(s: Service, projects: seq<ProjectId>) returns (targets: seq<Target>, failed: set<ProjectId>)
    ensures targets == AllFound(s, projects)
    ensures forall p :: p in failed <==> p in projects && !Known(s, projects, p)
  {
    targets, failed := [], {};
    for i := 0 to |projects|
      invariant targets == AllFound(s, projects[..i]) && Marked(s, projects, i, failed)
    {
      assert projects[..i + 1][..i] == projects[..i];
      var found, bad := FindTargets(s, i, projects[i]);
      MarkNext(s, projects, i, failed);
      targets := targets + found;
      if bad { failed := failed + {projects[i]}; }
    }
    assert projects[..|projects|] == projects;
  }

  function Deletions(targets: seq<Target>): (r: seq<Call>)
    ensures |r| == |targets| && forall k | 0 <= k < |r| :: r[k] == DeleteCluster(targets[k])
  {
    seq(|targets|, k requires 0 <= k < |targets| => DeleteCluster(targets[k]))
  }

  function Waits(targets: seq<Target>): (r: seq<Call>)
    ensures |r| == |targets| && forall k | 0 <= k < |r| :: r[k] == AwaitDeletion(targets[k])
  {
    seq(|targets|, k requires 0 <= k < |targets| => AwaitDeletion(targets[k]))
  }

  /** The deletion of one of the first n targets could not be issued, and the target is in project p. */
  ghost predicate DeletionFailed(s: Service, targets: seq<Target>, n: nat, p: ProjectId)
    requires n <= |targets|
  {
    exists k :: 0 <= k < n && targets[k].project == p && !s.deleteWorks(k)
  }

  /** The same for waiting for a deletion. */
  ghost predicate WaitFailed(s: Service, targets: seq<Target>, n: nat, p: ProjectId)
    requires n <= |targets|
  {
    exists k :: 0 <= k < n && targets[k].project == p && !s.waitWorks(k)
  }

  /** Issues every deletion, whatever happened to the others. */
  method DeleteAll(s: Service, targets: seq<Target>, before: set<ProjectId>)
    returns (failed: set<ProjectId>, calls: seq<Call>)
    ensures calls == Deletions(targets)
    ensures forall p :: p in failed <==> p in before || DeletionFailed(s, targets, |targets|, p)
  {
    failed, calls := before, [];
    for i := 0 to |targets|
      invariant calls == Deletions(targets)[..i]
      invariant forall p :: p in failed <==> p in before || DeletionFailed(s, targets, i, p)
    {
      calls := calls + [DeleteCluster(targets[i])];
      if !s.deleteWorks(i) { failed := failed + {targets[i].project}; }
    }
  }

  /** Waits for every deletion, even of clusters whose deletion could not be issued. */
  method AwaitAll(s: Service, targets: seq<Target>, before: set<ProjectId>)
    returns (failed: set<ProjectId>, calls: seq<Call>)
    ensures calls == Waits(targets)
    ensures forall p :: p in failed <==> p in before || WaitFailed(s, targets, |targets|, p)
  {
    failed, calls := before, [];
    for i := 0 to |targets|
      invariant calls == Waits(targets)[..i]
      invariant forall p :: p in failed <==> p in before || WaitFailed(s, targets, i, p)
    {
      calls := calls + [AwaitDeletion(targets[i])];
      if !s.waitWorks(i) { failed := failed + {targets[i].project}; }
    }
  }

  /** The deletions of the projects that are emptied, in the order of the listing. */
  ghost function Removals(s: Service, all: seq<ProjectId>, projects: seq<ProjectId>): seq<Call> {
    if projects == [] then []
    else
      var p := projects[|projects| - 1];
      Removals(s, all, projects[..|projects| - 1]) + if Emptied(s, all, p) then [DeleteProject(p)] else []
  }

  lemma {:induction false} RemovalsMember(s: Service, all: seq<ProjectId>, projects: seq<ProjectId>)
    ensures forall c :: c in Removals(s, all, projects)
                        <==> c.DeleteProject? && c.project in projects && Emptied(s, all, c.project)
  {
    if projects != [] {
      var k := |projects| - 1;
      RemovalsMember(s, all, projects[..k]);
      assert projects == projects[..k] + [projects[k]];
    }
  }

  lemma RemovalsNext(s: Service, all: seq<ProjectId>, projects: seq<ProjectId>, i: nat)
    requires i < |projects|
    ensures Removals(s, all, projects[..i + 1])
         == Removals(s, all, projects[..i]) + if Emptied(s, all, projects[i]) then [DeleteProject(projects[i])] else []
  {
    assert projects[..i + 1][..i] == projects[..i];
  }

  /** Some deletion among those of the first n projects did not work. */
  ghost predicate RemovalFailed(s: Service, projects: seq<ProjectId>, n: nat)
    requires n <= |projects|
  {
    exists i :: 0 <= i < n && Emptied(s, projects, projects[i]) && !s.deleteProjectWorks(i)
  }

  method DeleteProjects(s: Service, projects: seq<ProjectId>, failed: set<ProjectId>)
    returns (errors: bool, calls: seq<Call>)
    requires forall p | p in projects :: p in failed <==> !Emptied(s, projects, p)
    ensures calls == Removals(s, projects, projects)
    ensures errors <==> RemovalFailed(s, projects, |projects|)
  {
    errors, calls := false, [];
    for i := 0 to |projects|
      invariant calls == Removals(s, projects, projects[..i])
      invariant errors <==> RemovalFailed(s, projects, i)
    {
      RemovalsNext(s, projects, projects, i);
      assert projects[i] in projects;
      if projects[i] !in failed {
        calls := calls + [DeleteProject(projects[i])];
        if !s.deleteProjectWorks(i) { errors := true; }
      }
    }
    assert projects[..|projects|] == projects;
  }

  lemma FailedIsNotEmptied(s: Service, projects: seq<ProjectId>, unknown: set<ProjectId>, afterDelete: set<ProjectId>,
                           failed: set<ProjectId>)
    requires forall p :: p in unknown <==> p in projects && !Known(s, projects, p)
    requires var targets := AllFound(s, projects);
             && (forall p :: p in afterDelete <==> p in unknown || DeletionFailed(s, targets, |targets|, p))
             && (forall p :: p in failed <==> p in afterDelete || WaitFailed(s, targets, |targets|, p))
    ensures forall p | p in projects :: p in failed <==> !Emptied(s, projects, p)
    ensures forall p | p in failed :: p in projects
  {
    forall p | p in failed && p !in unknown ensures p in projects {
      var k :| 0 <= k < |AllFound(s, projects)| && AllFound(s, projects)[k].project == p;
      FoundMeans(s, projects, AllFound(s, projects)[k]);
    }
  }

  lemma NothingFailed(s: Service, projects: seq<ProjectId>, failed: set<ProjectId>)
    requires forall p | p in projects :: p in failed <==> !Emptied(s, projects, p)
    requires forall p | p in failed :: p in projects
    ensures failed == {} && !RemovalFailed(s, projects, |projects|)
       <==> forall i | 0 <= i < |projects| :: Emptied(s, projects, projects[i]) && s.deleteProjectWorks(i)
  {
  }

  lemma OnlyRemovals(targets: seq<Target>, removals: seq<Call>, p: ProjectId)
    ensures DeleteProject(p) in Deletions(targets) + Waits(targets) + removals <==> DeleteProject(p) in removals
  {
  }

  /** What `calls` must be: the n deletions, then a wait for each of them, then projects. Exactly the targets that the
      service lists are deleted and waited for, and exactly the projects are deleted in which everything was listed and
      everything listed was deleted and waited for. */
  ghost predicate Removes(s: Service, projects: seq<ProjectId>, calls: seq<Call>, n: nat) {
    && 2 * n <= |calls|
    && (forall k | 0 <= k < n :: calls[k].DeleteCluster? && calls[n + k] == AwaitDeletion(calls[k].target))
    && (forall k | 2 * n <= k < |calls| :: calls[k].DeleteProject?)
    && (forall t :: DeleteCluster(t) in calls <==> IsListed(s, projects, t))
    && (forall t :: AwaitDeletion(t) in calls <==> IsListed(s, projects, t))
    && forall p :: DeleteProject(p) in calls <==> p in projects && Vacated(s, projects, calls[..n], p)
  }

  /** Everything in the project was listed, and each of these deletions worked that belongs to it, as did its wait. */
  ghost predicate Vacated(s: Service, projects: seq<ProjectId>, deletions: seq<Call>, p: ProjectId) {
    && (forall i | 0 <= i < |projects| && projects[i] == p :: s.clusters(i).Some? && s.columnars(i).Some?)
    && (forall i, k | 0 <= i < |projects| && projects[i] == p && s.columnars(i).Some?
                      && 0 <= k < |s.columnars(i).value| :: s.detail(i, k).Some?)
    && forall k | 0 <= k < |deletions| && deletions[k].DeleteCluster? && deletions[k].target.project == p ::
         s.deleteWorks(k) && s.waitWorks(k)
  }

  lemma EmptiedMeans(s: Service, projects: seq<ProjectId>, p: ProjectId)
    ensures Emptied(s, projects, p) <==> Vacated(s, projects, Deletions(AllFound(s, projects)), p)
  {
    var targets := AllFound(s, projects);
    var deletions := Deletions(targets);
    assert forall k | 0 <= k < |targets| :: deletions[k].DeleteCluster? && deletions[k].target == targets[k];
  }

  lemma CallsInOrder(targets: seq<Target>, removals: seq<Call>, calls: seq<Call>)
    requires calls == Deletions(targets) + Waits(targets) + removals
    requires forall c | c in removals :: c.DeleteProject?
    ensures var n := |targets|;
            && 2 * n <= |calls| && calls[..n] == Deletions(targets)
            && (forall k | 0 <= k < n :: calls[k].DeleteCluster? && calls[n + k] == AwaitDeletion(calls[k].target))
            && forall k | 2 * n <= k < |calls| :: calls[k].DeleteProject?
  {
    forall k | 2 * |targets| <= k < |calls| ensures calls[k].DeleteProject? {
      assert calls[k] == removals[k - 2 * |targets|];
    }
  }

  lemma CallsRemove(s: Service, projects: seq<ProjectId>, calls: seq<Call>)
    requires var targets := AllFound(s, projects);
             calls == Deletions(targets) + Waits(targets) + Removals(s, projects, projects)
    ensures Removes(s, projects, calls, |AllFound(s, projects)|)
  {
    var targets, removals := AllFound(s, projects), Removals(s, projects, projects);
    RemovalsMember(s, projects, projects);
    CallsInOrder(targets, removals, calls);
    forall t ensures DeleteCluster(t) in calls <==> IsListed(s, projects, t)
             ensures AwaitDeletion(t) in calls <==> IsListed(s, projects, t)
    {
      TargetsOnly(targets, removals, t);
      FoundMeans(s, projects, t);
    }
    forall p ensures DeleteProject(p) in calls <==> p in projects && Vacated(s, projects, Deletions(targets), p) {
      OnlyRemovals(targets, removals, p);
      EmptiedMeans(s, projects, p);
    }
  }

  lemma TargetsOnly(targets: seq<Target>, removals: seq<Call>, t: Target)
    requires forall c | c in removals :: c.DeleteProject?
    ensures DeleteCluster(t) in Deletions(targets) + Waits(targets) + removals <==> t in targets
    ensures AwaitDeletion(t) in Deletions(targets) + Waits(targets) + removals <==> t in targets
  {
    if t in targets {
      var k :| 0 <= k < |targets| && targets[k] == t;
      assert Deletions(targets)[k] == DeleteCluster(t) && Waits(targets)[k] == AwaitDeletion(t);
    }
  }

  /** Every cluster that was found is deleted, then every one is waited for, then each project that is emptied is
      deleted, each time in order. So a project is deleted if and only if it is listed and emptied. Success means that
      nothing failed anywhere. `calls` is everything that was changed, and `n` the number of targets. */
  method RemoveAll(s: Service) returns (ok: bool, calls: seq<Call>, ghost n: nat)
    ensures s.projects.None? ==> !ok && calls == []
    ensures s.projects.Some? ==> var projects := s.projects.value;
              && calls == Deletions(AllFound(s, projects)) + Waits(AllFound(s, projects))
                 + Removals(s, projects, projects)
              && Removes(s, projects, calls, n)
              && (ok <==> forall i | 0 <= i < |projects| ::
                  DeleteProject(projects[i]) in calls && s.deleteProjectWorks(i))
  {
    n := 0;
    if s.projects.None? { return false, [], 0; }
    var projects := s.projects.value;
    var targets, unknown := FindAllTargets(s, projects);
    n := |targets|;
    var afterDelete, deletions := DeleteAll(s, targets, unknown);
    var failed, waits := AwaitAll(s, targets, afterDelete);
    FailedIsNotEmptied(s, projects, unknown, afterDelete, failed);
    RemovalsMember(s, projects, projects);
    var projectErrors, removals := DeleteProjects(s, projects, failed);
    calls := deletions + waits + removals;
    ok := failed == {} && !projectErrors;
    NothingFailed(s, projects, failed);
    forall p ensures DeleteProject(p) in calls <==> p in projects && Emptied(s, projects, p) {
      OnlyRemovals(targets, removals, p);
    }
    CallsRemove(s, projects, calls);
  }
}
