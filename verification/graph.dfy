/**
  The visualizer's three views of the data set.

  * `default`: contributors and teams, with one `team-member` link per entry of
    a team's member list;
  * `teamsRepos`: teams and repos, with one `team-repo` link per entry of a
    team's repo list;
  * `contributorsRepos`: contributors and repos, with one `contributor-repo`
    link per distinct pair joined by some team.

  Node ids and link ends are the `scoped_id` of a record key.  That rendering
  is not part of this model, so it is a parameter `scoped`; where a property
  needs it to tell keys apart, `ScopedInjective` says so.  Links are built from
  the names the teams list, so a link may point at an id no node has.
 */
module Graph {
  import opened Collections
  import opened Model
  import opened Checks

  /** How `scoped_id` renders a key into a node id; its definition is not shown in the sources. */
  type ScopedId = EntityKey -> string

  /** `scoped` renders different keys differently. */
  ghost predicate ScopedInjective(scoped: ScopedId) {
    forall k1, k2 :: scoped(k1) == scoped(k2) ==> k1 == k2
  }

  datatype GraphNode =
    | ContributorNode(id: string, contributor: Contributor)
    | TeamNode(id: string, team: Team)
    | RepoNode(id: string, repo: Repo)

  datatype LinkType = TeamMember | TeamRepo | ContributorRepo {
    /** The `linkType` string of the serialised link. */
    function Name(): string {
      match this
      case TeamMember => "team-member"
      case TeamRepo => "team-repo"
      case ContributorRepo => "contributor-repo"
    }
  }

  datatype GraphLink = GraphLink(source: string, target: string, linkType: LinkType)

  datatype GraphData = GraphData(nodes: seq<GraphNode>, links: seq<GraphLink>)

  /** The JSON object `build_graph_data` returns. */
  datatype GraphViews = GraphViews(default: GraphData, teamsRepos: GraphData, contributorsRepos: GraphData)

  /** The ids of the nodes. */
  ghost function NodeIds(nodes: seq<GraphNode>): set<string> {
    set n | n in nodes :: n.id
  }

  ghost function Ids(g: GraphData): set<string> {
    NodeIds(g.nodes)
  }

  /** The ids of the keys of `m`. */
  ghost function ScopedKeys<V>(scoped: ScopedId, m: map<EntityKey, V>): set<string> {
    set k | k in m :: scoped(k)
  }

  lemma NodeIdsAppend(a: seq<GraphNode>, b: seq<GraphNode>)
    ensures NodeIds(a + b) == NodeIds(a) + NodeIds(b)
  {
    assert forall n | n in a + b :: n in a || n in b;
  }

  /** Every link joins two nodes of the view. */
  ghost predicate Closed(g: GraphData) {
    forall l | l in g.links :: l.source in Ids(g) && l.target in Ids(g)
  }

  ghost predicate MembersResolve(store: Store) {
    forall k, m | k in store.teams && m in store.teams[k].members :: ContributorKey(m) in store.contributors
  }

  ghost predicate ReposResolve(store: Store) {
    forall k, r | k in store.teams && r in store.teams[k].repos :: RepoKey(r) in store.repos
  }

  // ===========================================================================
  // Nodes

  /** The node list of one directory: one node per record, built by `make`. */
  function NodeOf<V>(make: (EntityKey, V) -> GraphNode): (EntityKey, V) -> seq<GraphNode> {
    (k: EntityKey, v: V) => [make(k, v)]
  }

  function MakeContributor(scoped: ScopedId): (EntityKey, Contributor) -> GraphNode {
    (k, c: Contributor) => ContributorNode(scoped(k), c)
  }

  function MakeTeam(scoped: ScopedId): (EntityKey, Team) -> GraphNode {
    (k, t: Team) => TeamNode(scoped(k), t)
  }

  function MakeRepo(scoped: ScopedId): (EntityKey, Repo) -> GraphNode {
    (k, r: Repo) => RepoNode(scoped(k), r)
  }

  /** Whatever always holds. */
  function Always<V>(): (EntityKey, V) -> bool {
    (k: EntityKey, v: V) => true
  }

  /** One node per record of `m`, standing for that record. */
  lemma NodesOf<V>(ks: seq<EntityKey>, m: map<EntityKey, V>, make: (EntityKey, V) -> GraphNode)
    requires Enumerates(ks, m)
    ensures |FlatMapEntries(ks, m, NodeOf(make))| == |m|
    ensures forall n :: n in FlatMapEntries(ks, m, NodeOf(make)) <==> exists k | k in m :: n == make(k, m[k])
  {
    FlatMapEntriesCount(ks, m, NodeOf(make), Always());
    assert Selected(m, Always()) == m.Keys;
    forall n
      ensures n in FlatMapEntries(ks, m, NodeOf(make)) <==> exists k | k in m :: n == make(k, m[k])
    {
      FlatMapEntriesMember(ks, m, NodeOf(make), n);
    }
  }

  /** The nodes of one directory carry exactly the ids of its records' keys. */
  lemma NodeIdsOf<V>(scoped: ScopedId, ks: seq<EntityKey>, m: map<EntityKey, V>, make: (EntityKey, V) -> GraphNode)
    requires Enumerates(ks, m)
    requires forall k, v :: make(k, v).id == scoped(k)
    ensures NodeIds(FlatMapEntries(ks, m, NodeOf(make))) == ScopedKeys(scoped, m)
  {
    NodesOf(ks, m, make);
    var ns := FlatMapEntries(ks, m, NodeOf(make));
    forall k | k in m
      ensures scoped(k) in NodeIds(ns)
    {
      assert make(k, m[k]) in ns;
    }
  }

  // ===========================================================================
  // Links that follow a team's lists

  /** One link from `source` per referenced name, to the id of that name under the kind tag `kind`. */
  function LinkFrom(scoped: ScopedId, source: string, kind: string, linkType: LinkType): string -> seq<GraphLink> {
    n => [GraphLink(source, scoped(EntityKey(kind, n)), linkType)]
  }

  /** One link per entry of the list `refs` of a team, repetitions included. */
  function ListLinks(scoped: ScopedId, kind: string, linkType: LinkType, refs: Team -> seq<string>)
    : (EntityKey, Team) -> seq<GraphLink>
  {
    (k, t: Team) => FlatMap(refs(t), LinkFrom(scoped, scoped(k), kind, linkType))
  }

  /** Length of a team's list `refs`. */
  function ListLength(refs: Team -> seq<string>): Team -> nat {
    (t: Team) => |refs(t)|
  }

  /** The links one team contributes: one per entry of its list. */
  lemma ListLinksOne(scoped: ScopedId, kind: string, linkType: LinkType, refs: Team -> seq<string>,
                     k: EntityKey, t: Team, l: GraphLink)
    ensures l in ListLinks(scoped, kind, linkType, refs)(k, t) <==>
      exists n | n in refs(t) :: l == GraphLink(scoped(k), scoped(EntityKey(kind, n)), linkType)
  {
    FlatMapMember(refs(t), LinkFrom(scoped, scoped(k), kind, linkType), l);
  }

  /** The links of one kind over all teams, described entry by entry. */
  lemma ListLinksMember(scoped: ScopedId, kind: string, linkType: LinkType, refs: Team -> seq<string>,
                        ks: seq<EntityKey>, teams: map<EntityKey, Team>, l: GraphLink)
    requires Enumerates(ks, teams)
    ensures l in FlatMapEntries(ks, teams, ListLinks(scoped, kind, linkType, refs)) <==>
      exists k, n | k in teams && n in refs(teams[k]) :: l == GraphLink(scoped(k), scoped(EntityKey(kind, n)), linkType)
  {
    var f := ListLinks(scoped, kind, linkType, refs);
    FlatMapEntriesMember(ks, teams, f, l);
    if l in FlatMapEntries(ks, teams, f) {
      var k :| k in teams && l in f(k, teams[k]);
      ListLinksOne(scoped, kind, linkType, refs, k, teams[k], l);
      var n :| n in refs(teams[k]) && l == GraphLink(scoped(k), scoped(EntityKey(kind, n)), linkType);
    } else {
      forall k, n | k in teams && n in refs(teams[k])
        ensures l != GraphLink(scoped(k), scoped(EntityKey(kind, n)), linkType)
      {
        assert l !in f(k, teams[k]);
        ListLinksOne(scoped, kind, linkType, refs, k, teams[k], l);
      }
    }
  }

  /** There are as many links of one kind as list entries over all teams. */
  lemma ListLinksCount(scoped: ScopedId, kind: string, linkType: LinkType, refs: Team -> seq<string>,
                       ks: seq<EntityKey>, teams: map<EntityKey, Team>)
    requires Enumerates(ks, teams)
    ensures |FlatMapEntries(ks, teams, ListLinks(scoped, kind, linkType, refs))| == SumMap(teams, ListLength(refs))
  {
    forall k, t: Team
      ensures |ListLinks(scoped, kind, linkType, refs)(k, t)| == ListLength(refs)(t)
    {
      FlatMapCount(refs(t), LinkFrom(scoped, scoped(k), kind, linkType), (n: string) => true);
      CountAll(refs(t));
    }
    FlatMapEntriesLength(ks, teams, ListLinks(scoped, kind, linkType, refs), ListLength(refs));
    SumValuesEnumeration(ks, teams, ListLength(refs));
  }

  lemma {:induction false} CountAll(xs: seq<string>)
    ensures Count(xs, (n: string) => true) == |xs|
  {
    if xs != [] {
      CountAll(xs[1..]);
    }
  }

  // ===========================================================================
  // The contributors/teams and teams/repos views

  /** `build_contributors_teams_graph`. */
  function ContributorsTeams(scoped: ScopedId, store: Store, order: Order): GraphData {
    GraphData(
      FlatMapEntries(order.contributors, store.contributors, NodeOf(MakeContributor(scoped)))
      + FlatMapEntries(order.teams, store.teams, NodeOf(MakeTeam(scoped))),
      FlatMapEntries(order.teams, store.teams, ListLinks(scoped, ContributorKind, TeamMember, Members)))
  }

  /** `build_teams_repos_graph`. */
  function TeamsRepos(scoped: ScopedId, store: Store, order: Order): GraphData {
    GraphData(
      FlatMapEntries(order.teams, store.teams, NodeOf(MakeTeam(scoped)))
      + FlatMapEntries(order.repos, store.repos, NodeOf(MakeRepo(scoped))),
      FlatMapEntries(order.teams, store.teams, ListLinks(scoped, RepoKind, TeamRepo, ReposOf)))
  }

  /** One node per contributor and per team, each carrying its record. */
  lemma ContributorsTeamsNodes(scoped: ScopedId, store: Store, order: Order)
    requires Iterates(order, store)
    ensures |ContributorsTeams(scoped, store, order).nodes| == |store.contributors| + |store.teams|
    ensures forall n :: n in ContributorsTeams(scoped, store, order).nodes <==>
      || (exists k | k in store.contributors :: n == ContributorNode(scoped(k), store.contributors[k]))
      || (exists k | k in store.teams :: n == TeamNode(scoped(k), store.teams[k]))
  {
    NodesOf(order.contributors, store.contributors, MakeContributor(scoped));
    NodesOf(order.teams, store.teams, MakeTeam(scoped));
  }

  /** The contributors/teams view has a node for exactly the contributors' and teams' ids. */
  lemma ContributorsTeamsIds(scoped: ScopedId, store: Store, order: Order)
    requires Iterates(order, store)
    ensures Ids(ContributorsTeams(scoped, store, order)) == ScopedKeys(scoped, store.contributors) + ScopedKeys(scoped, store.teams)
  {
    var a := FlatMapEntries(order.contributors, store.contributors, NodeOf(MakeContributor(scoped)));
    var b := FlatMapEntries(order.teams, store.teams, NodeOf(MakeTeam(scoped)));
    NodeIdsAppend(a, b);
    NodeIdsOf(scoped, order.contributors, store.contributors, MakeContributor(scoped));
    NodeIdsOf(scoped, order.teams, store.teams, MakeTeam(scoped));
  }

  /** One node per team and per repo, each carrying its record. */
  lemma TeamsReposNodes(scoped: ScopedId, store: Store, order: Order)
    requires Iterates(order, store)
    ensures |TeamsRepos(scoped, store, order).nodes| == |store.teams| + |store.repos|
    ensures forall n :: n in TeamsRepos(scoped, store, order).nodes <==>
      || (exists k | k in store.teams :: n == TeamNode(scoped(k), store.teams[k]))
      || (exists k | k in store.repos :: n == RepoNode(scoped(k), store.repos[k]))
  {
    NodesOf(order.teams, store.teams, MakeTeam(scoped));
    NodesOf(order.repos, store.repos, MakeRepo(scoped));
  }

  /** The teams/repos view has a node for exactly the teams' and repos' ids. */
  lemma TeamsReposIds(scoped: ScopedId, store: Store, order: Order)
    requires Iterates(order, store)
    ensures Ids(TeamsRepos(scoped, store, order)) == ScopedKeys(scoped, store.teams) + ScopedKeys(scoped, store.repos)
  {
    var a := FlatMapEntries(order.teams, store.teams, NodeOf(MakeTeam(scoped)));
    var b := FlatMapEntries(order.repos, store.repos, NodeOf(MakeRepo(scoped)));
    NodeIdsAppend(a, b);
    NodeIdsOf(scoped, order.teams, store.teams, MakeTeam(scoped));
    NodeIdsOf(scoped, order.repos, store.repos, MakeRepo(scoped));
  }

  /**
    A `team-member` link goes from a team to the contributor key of each name in
    its member list, whether or not such a contributor exists; repeated names
    repeat the link.
   */
  lemma ContributorsTeamsLinks(scoped: ScopedId, store: Store, order: Order)
    requires Iterates(order, store)
    ensures forall l :: l in ContributorsTeams(scoped, store, order).links <==>
      exists k, m | k in store.teams && m in store.teams[k].members ::
        l == GraphLink(scoped(k), scoped(ContributorKey(m)), TeamMember)
    ensures |ContributorsTeams(scoped, store, order).links| == SumMap(store.teams, ListLength(Members))
  {
    assert forall m :: ContributorKey(m) == EntityKey(ContributorKind, m);
    forall l {
      ListLinksMember(scoped, ContributorKind, TeamMember, Members, order.teams, store.teams, l);
    }
    ListLinksCount(scoped, ContributorKind, TeamMember, Members, order.teams, store.teams);
  }

  /** A `team-repo` link goes from a team to the repo key of each name in its repo list. */
  lemma TeamsReposLinks(scoped: ScopedId, store: Store, order: Order)
    requires Iterates(order, store)
    ensures forall l :: l in TeamsRepos(scoped, store, order).links <==>
      exists k, r | k in store.teams && r in store.teams[k].repos :: l == GraphLink(scoped(k), scoped(RepoKey(r)), TeamRepo)
    ensures |TeamsRepos(scoped, store, order).links| == SumMap(store.teams, ListLength(ReposOf))
  {
    assert forall r :: RepoKey(r) == EntityKey(RepoKind, r);
    forall l {
      ListLinksMember(scoped, RepoKind, TeamRepo, ReposOf, order.teams, store.teams, l);
    }
    ListLinksCount(scoped, RepoKind, TeamRepo, ReposOf, order.teams, store.teams);
  }

  /** Every name on the list `refs` of every team is a key of kind `kind` in `targets`. */
  ghost predicate ListResolves<V>(teams: map<EntityKey, Team>, refs: Team -> seq<string>, kind: string, targets: map<EntityKey, V>) {
    forall k, n | k in teams && n in refs(teams[k]) :: EntityKey(kind, n) in targets
  }

  /**
    A view whose nodes are the teams and the `targets`, and whose links follow
    the lists `refs`, is closed when every listed name resolves; when ids tell
    keys apart and no team key has the targets' kind, only then.
   */
  lemma ListViewClosed<V>(scoped: ScopedId, g: GraphData, teams: map<EntityKey, Team>, refs: Team -> seq<string>,
                          kind: string, linkType: LinkType, targets: map<EntityKey, V>)
    requires Ids(g) == ScopedKeys(scoped, teams) + ScopedKeys(scoped, targets)
    requires forall l :: l in g.links <==>
      exists k, n | k in teams && n in refs(teams[k]) :: l == GraphLink(scoped(k), scoped(EntityKey(kind, n)), linkType)
    ensures ListResolves(teams, refs, kind, targets) ==> Closed(g)
    ensures ScopedInjective(scoped) && (forall k | k in teams :: k.kind != kind) && Closed(g)
      ==> ListResolves(teams, refs, kind, targets)
  {
    if ListResolves(teams, refs, kind, targets) {
      forall l | l in g.links
        ensures l.source in Ids(g) && l.target in Ids(g)
      {
        var k, n :| k in teams && n in refs(teams[k]) && l == GraphLink(scoped(k), scoped(EntityKey(kind, n)), linkType);
        assert EntityKey(kind, n) in targets;
      }
    }
    if ScopedInjective(scoped) && (forall k | k in teams :: k.kind != kind) && Closed(g) {
      forall k, n | k in teams && n in refs(teams[k])
        ensures EntityKey(kind, n) in targets
      {
        assert GraphLink(scoped(k), scoped(EntityKey(kind, n)), linkType) in g.links;
        var k' :| (k' in teams || k' in targets) && scoped(k') == scoped(EntityKey(kind, n));
      }
    }
  }

  /**
    When every member name is a contributor, no `team-member` link dangles; with
    a well-kinded store and ids that tell keys apart, the converse holds too.
   */
  lemma ContributorsTeamsClosed(scoped: ScopedId, store: Store, order: Order)
    requires Iterates(order, store)
    ensures MembersResolve(store) ==> Closed(ContributorsTeams(scoped, store, order))
    ensures WellKinded(store) && ScopedInjective(scoped) && Closed(ContributorsTeams(scoped, store, order))
      ==> MembersResolve(store)
  {
    ContributorsTeamsIds(scoped, store, order);
    ContributorsTeamsLinks(scoped, store, order);
    assert forall m :: ContributorKey(m) == EntityKey(ContributorKind, m);
    assert MembersResolve(store) <==> ListResolves(store.teams, Members, ContributorKind, store.contributors);
    ListViewClosed(scoped, ContributorsTeams(scoped, store, order), store.teams, Members, ContributorKind, TeamMember,
                   store.contributors);
  }

  /**
    When every repo name is a repo, no `team-repo` link dangles; with a
    well-kinded store and ids that tell keys apart, the converse holds too.
   */
  lemma TeamsReposClosed(scoped: ScopedId, store: Store, order: Order)
    requires Iterates(order, store)
    ensures ReposResolve(store) ==> Closed(TeamsRepos(scoped, store, order))
    ensures WellKinded(store) && ScopedInjective(scoped) && Closed(TeamsRepos(scoped, store, order))
      ==> ReposResolve(store)
  {
    TeamsReposIds(scoped, store, order);
    TeamsReposLinks(scoped, store, order);
    assert forall r :: RepoKey(r) == EntityKey(RepoKind, r);
    assert ReposResolve(store) <==> ListResolves(store.teams, ReposOf, RepoKind, store.repos);
    ListViewClosed(scoped, TeamsRepos(scoped, store, order), store.teams, ReposOf, RepoKind, TeamRepo, store.repos);
  }

  /** Whatever order the maps are iterated in, the two views hold the same nodes and links. */
  lemma ListViewsOrderFree(scoped: ScopedId, store: Store, o1: Order, o2: Order)
    requires Iterates(o1, store) && Iterates(o2, store)
    ensures multiset(ContributorsTeams(scoped, store, o1).nodes) == multiset(ContributorsTeams(scoped, store, o2).nodes)
    ensures multiset(ContributorsTeams(scoped, store, o1).links) == multiset(ContributorsTeams(scoped, store, o2).links)
    ensures multiset(TeamsRepos(scoped, store, o1).nodes) == multiset(TeamsRepos(scoped, store, o2).nodes)
    ensures multiset(TeamsRepos(scoped, store, o1).links) == multiset(TeamsRepos(scoped, store, o2).links)
  {
    FlatMapEntriesOrderFree(o1.contributors, o2.contributors, store.contributors, NodeOf(MakeContributor(scoped)));
    FlatMapEntriesOrderFree(o1.teams, o2.teams, store.teams, NodeOf(MakeTeam(scoped)));
    FlatMapEntriesOrderFree(o1.repos, o2.repos, store.repos, NodeOf(MakeRepo(scoped)));
    FlatMapEntriesOrderFree(o1.teams, o2.teams, store.teams, ListLinks(scoped, ContributorKind, TeamMember, Members));
    FlatMapEntriesOrderFree(o1.teams, o2.teams, store.teams, ListLinks(scoped, RepoKind, TeamRepo, ReposOf));
  }

  // ===========================================================================
  // The contributors/repos view

  /** `contributor_to_repos`: member name to the set of repo names it reaches. */
  type RepoReach = map<string, set<string>>

  /** The repos `member` reaches so far, none when it has no entry yet. */
  function Reach(conn: RepoReach, member: string): set<string> {
    if member in conn then conn[member] else {}
  }

  function Elems(xs: seq<string>): set<string> {
    set x | x in xs
  }

  /** The innermost loop: insert every repo name for one member. */
  function Connect(conn: RepoReach, member: string, repos: seq<string>): RepoReach
    decreases |repos|
  {
    if repos == [] then conn
    else Connect(conn[member := Reach(conn, member) + {repos[0]}], member, repos[1..])
  }

  /** The middle loop: every member of one team reaches every repo of that team. */
  function ConnectTeam(conn: RepoReach, members: seq<string>, repos: seq<string>): RepoReach
    decreases |members|
  {
    if members == [] then conn
    else ConnectTeam(Connect(conn, members[0], repos), members[1..], repos)
  }

  /** One iteration of the outer loop: fold in the team under `k`. */
  function ConnectStep(conn: RepoReach, k: EntityKey, teams: map<EntityKey, Team>): RepoReach {
    if k in teams then ConnectTeam(conn, teams[k].members, teams[k].repos) else conn
  }

  /** The outer loop over the teams, in the iteration order `ks`. */
  function ConnectAll(conn: RepoReach, ks: seq<EntityKey>, teams: map<EntityKey, Team>): RepoReach
    decreases |ks|
  {
    if ks == [] then conn else ConnectAll(ConnectStep(conn, ks[0], teams), ks[1..], teams)
  }

  /** Repo names that `member` reaches through the teams listed in `ks`. */
  ghost function Via(ks: seq<EntityKey>, teams: map<EntityKey, Team>, member: string): set<string> {
    set k, r | k in ks && k in teams && member in teams[k].members && r in teams[k].repos :: r
  }

  /** Member names of teams listed in `ks` that have at least one repo. */
  ghost function Connected(ks: seq<EntityKey>, teams: map<EntityKey, Team>): set<string> {
    set k, m | k in ks && k in teams && m in teams[k].members && teams[k].repos != [] :: m
  }

  /** Inserting repos for one member only touches that member's entry, and creates it only if there is a repo. */
  lemma {:induction false} ConnectSpec(conn: RepoReach, member: string, repos: seq<string>)
    ensures Connect(conn, member, repos).Keys == conn.Keys + (if repos == [] then {} else {member})
    ensures forall x :: Reach(Connect(conn, member, repos), x) == Reach(conn, x) + (if x == member then Elems(repos) else {})
    decreases |repos|
  {
    if repos != [] {
      var next := conn[member := Reach(conn, member) + {repos[0]}];
      ConnectSpec(next, member, repos[1..]);
      ElemsCons(repos);
    }
  }

  /** After one team, each of its members reaches each of its repos. */
  lemma {:induction false} ConnectTeamSpec(conn: RepoReach, members: seq<string>, repos: seq<string>)
    ensures ConnectTeam(conn, members, repos).Keys == conn.Keys + (if repos == [] then {} else Elems(members))
    ensures forall x :: (Reach(ConnectTeam(conn, members, repos), x)
      == Reach(conn, x) + (if x in members then Elems(repos) else {}))
    decreases |members|
  {
    if members != [] {
      var next := Connect(conn, members[0], repos);
      ConnectSpec(conn, members[0], repos);
      ConnectTeamSpec(next, members[1..], repos);
      ElemsCons(members);
      forall x
        ensures Reach(ConnectTeam(conn, members, repos), x)
          == Reach(conn, x) + (if x in members then Elems(repos) else {})
      {
        assert Reach(ConnectTeam(conn, members, repos), x)
          == Reach(next, x) + (if x in members[1..] then Elems(repos) else {});
        assert x in members <==> x == members[0] || x in members[1..];
      }
    }
  }

  lemma ElemsCons(xs: seq<string>)
    requires xs != []
    ensures Elems(xs) == {xs[0]} + Elems(xs[1..])
  {
    assert forall x | x in xs :: x == xs[0] || x in xs[1..];
  }

  lemma ViaCons(ks: seq<EntityKey>, teams: map<EntityKey, Team>, member: string)
    requires ks != []
    ensures Via(ks, teams, member)
      == (if ks[0] in teams && member in teams[ks[0]].members then Elems(teams[ks[0]].repos) else {})
       + Via(ks[1..], teams, member)
  {
    assert forall k | k in ks :: k == ks[0] || k in ks[1..];
  }

  lemma ConnectedCons(ks: seq<EntityKey>, teams: map<EntityKey, Team>)
    requires ks != []
    ensures Connected(ks, teams)
      == (if ks[0] in teams && teams[ks[0]].repos != [] then Elems(teams[ks[0]].members) else {})
       + Connected(ks[1..], teams)
  {
    assert forall k | k in ks :: k == ks[0] || k in ks[1..];
  }

  /** One team folded in: its members gain entries if it has a repo, and reach its repos. */
  lemma ConnectStepSpec(conn: RepoReach, k: EntityKey, teams: map<EntityKey, Team>, x: string)
    ensures ConnectStep(conn, k, teams).Keys
      == conn.Keys + (if k in teams && teams[k].repos != [] then Elems(teams[k].members) else {})
    ensures Reach(ConnectStep(conn, k, teams), x)
      == Reach(conn, x) + (if k in teams && x in teams[k].members then Elems(teams[k].repos) else {})
  {
    if k in teams {
      ConnectTeamSpec(conn, teams[k].members, teams[k].repos);
    }
  }

  /** After the teams `ks`, the members with an entry are those of teams with a repo. */
  lemma {:induction false} ConnectAllKeys(conn: RepoReach, ks: seq<EntityKey>, teams: map<EntityKey, Team>)
    ensures ConnectAll(conn, ks, teams).Keys == conn.Keys + Connected(ks, teams)
    decreases |ks|
  {
    if ks != [] {
      ConnectStepSpec(conn, ks[0], teams, "");
      ConnectAllKeys(ConnectStep(conn, ks[0], teams), ks[1..], teams);
      ConnectedCons(ks, teams);
    }
  }

  /** After the teams `ks`, a member reaches exactly the repos of the teams listing it. */
  lemma {:induction false} ConnectAllReach(conn: RepoReach, ks: seq<EntityKey>, teams: map<EntityKey, Team>, x: string)
    ensures Reach(ConnectAll(conn, ks, teams), x) == Reach(conn, x) + Via(ks, teams, x)
    decreases |ks|
  {
    if ks != [] {
      ConnectStepSpec(conn, ks[0], teams, x);
      ConnectAllReach(ConnectStep(conn, ks[0], teams), ks[1..], teams, x);
      ViaCons(ks, teams, x);
    }
  }

  lemma ConnectAllSpec(conn: RepoReach, ks: seq<EntityKey>, teams: map<EntityKey, Team>)
    ensures ConnectAll(conn, ks, teams).Keys == conn.Keys + Connected(ks, teams)
    ensures forall x :: Reach(ConnectAll(conn, ks, teams), x) == Reach(conn, x) + Via(ks, teams, x)
  {
    ConnectAllKeys(conn, ks, teams);
    forall x
      ensures Reach(ConnectAll(conn, ks, teams), x) == Reach(conn, x) + Via(ks, teams, x)
    {
      ConnectAllReach(conn, ks, teams, x);
    }
  }

  /** `contributor_to_repos` once every team is folded in. */
  function Connections(ks: seq<EntityKey>, teams: map<EntityKey, Team>): RepoReach {
    ConnectAll(map[], ks, teams)
  }

  /**
    A member name has an entry iff some team lists it and has a repo, and it
    reaches a repo name iff some team lists both.
   */
  lemma ConnectionsSpec(ks: seq<EntityKey>, teams: map<EntityKey, Team>)
    requires Enumerates(ks, teams)
    ensures forall m :: m in Connections(ks, teams) <==>
      exists k | k in teams :: m in teams[k].members && teams[k].repos != []
    ensures forall m, r | m in Connections(ks, teams) :: r in Connections(ks, teams)[m] <==>
      exists k | k in teams :: m in teams[k].members && r in teams[k].repos
  {
    var c := Connections(ks, teams);
    ConnectAllSpec(map[], ks, teams);
    forall m
      ensures m in c <==> exists k | k in teams :: m in teams[k].members && teams[k].repos != []
    {
      if m in c {
        var k :| k in ks && k in teams && m in teams[k].members && teams[k].repos != [];
      }
    }
    forall m, r | m in c
      ensures r in c[m] <==> exists k | k in teams :: m in teams[k].members && r in teams[k].repos
    {
      assert Reach(c, m) == Via(ks, teams, m);
      if r in c[m] {
        var k :| k in ks && k in teams && m in teams[k].members && r in teams[k].repos;
      }
    }
  }

  /** The connection map does not depend on the order the teams are visited in. */
  lemma ConnectionsOrderFree(ks1: seq<EntityKey>, ks2: seq<EntityKey>, teams: map<EntityKey, Team>)
    requires Enumerates(ks1, teams) && Enumerates(ks2, teams)
    ensures Connections(ks1, teams) == Connections(ks2, teams)
  {
    var c1, c2 := Connections(ks1, teams), Connections(ks2, teams);
    ConnectionsSpec(ks1, teams);
    ConnectionsSpec(ks2, teams);
    assert c1.Keys == c2.Keys;
    forall m | m in c1
      ensures c1[m] == c2[m]
    {
      assert forall r :: r in c1[m] <==> r in c2[m];
    }
  }

  /** The pairs of the connection map. */
  ghost function Pairs(conn: RepoReach): set<(string, string)> {
    set m, r | m in conn && r in conn[m] :: (m, r)
  }

  /** The (member name, repo name) pairs some team lists together. */
  ghost function JoinPairs(teams: map<EntityKey, Team>): set<(string, string)> {
    set k, m, r | k in teams && m in teams[k].members && r in teams[k].repos :: (m, r)
  }

  function ContributorRepoLink(scoped: ScopedId, member: string, repo: string): GraphLink {
    GraphLink(scoped(ContributorKey(member)), scoped(RepoKey(repo)), ContributorRepo)
  }

  /**
    The link loop: one `contributor-repo` link per pair of the connection map.
    Map and set iteration order is not fixed, so each step takes any pair not
    yet visited.  Pairs are visited once each, so there are as many links as
    pairs, and no link repeats when ids tell keys apart.
   */
  method ConnectionLinks(scoped: ScopedId, conn: RepoReach) returns (links: seq<GraphLink>)
    ensures forall m, r | m in conn && r in conn[m] :: ContributorRepoLink(scoped, m, r) in links
    ensures forall l | l in links :: exists m, r | m in conn && r in conn[m] :: l == ContributorRepoLink(scoped, m, r)
    ensures |links| == |Pairs(conn)|
    ensures ScopedInjective(scoped) ==> Distinct(links)
  {
    links := [];
    ghost var visited: seq<(string, string)> := [];
    var pending := conn.Keys;
    while pending != {}
      invariant pending <= conn.Keys
      invariant |links| == |visited|
      invariant forall i | 0 <= i < |visited| :: links[i] == ContributorRepoLink(scoped, visited[i].0, visited[i].1)
      invariant forall m, r :: (m, r) in visited <==> m in conn && m !in pending && r in conn[m]
      invariant Distinct(visited)
      decreases pending
    {
      var m :| m in pending;
      var repos := conn[m];
      while repos != {}
        invariant repos <= conn[m]
        invariant |links| == |visited|
        invariant forall i | 0 <= i < |visited| :: links[i] == ContributorRepoLink(scoped, visited[i].0, visited[i].1)
        invariant forall m', r :: (m', r) in visited <==>
          (m' in conn && m' !in pending && r in conn[m']) || (m' == m && r in conn[m] && r !in repos)
        invariant Distinct(visited)
        decreases repos
      {
        var r :| r in repos;
        assert (m, r) !in visited;
        links := links + [ContributorRepoLink(scoped, m, r)];
        visited := visited + [(m, r)];
        repos := repos - {r};
      }
      pending := pending - {m};
    }
    LinksOfPairs(scoped, conn, links, visited);
  }

  /** What the link loop's bookkeeping gives once every pair is visited. */
  lemma LinksOfPairs(scoped: ScopedId, conn: RepoReach, links: seq<GraphLink>, visited: seq<(string, string)>)
    requires |links| == |visited|
    requires forall i | 0 <= i < |visited| :: links[i] == ContributorRepoLink(scoped, visited[i].0, visited[i].1)
    requires forall m, r :: (m, r) in visited <==> m in conn && r in conn[m]
    requires Distinct(visited)
    ensures forall m, r | m in conn && r in conn[m] :: ContributorRepoLink(scoped, m, r) in links
    ensures forall l | l in links :: exists m, r | m in conn && r in conn[m] :: l == ContributorRepoLink(scoped, m, r)
    ensures |links| == |Pairs(conn)|
    ensures ScopedInjective(scoped) ==> Distinct(links)
  {
    forall m, r | m in conn && r in conn[m]
      ensures ContributorRepoLink(scoped, m, r) in links
    {
      var i :| 0 <= i < |visited| && visited[i] == (m, r);
      assert links[i] == ContributorRepoLink(scoped, m, r);
    }
    forall l | l in links
      ensures exists m, r | m in conn && r in conn[m] :: l == ContributorRepoLink(scoped, m, r)
    {
      var i :| 0 <= i < |links| && links[i] == l;
      assert visited[i] in visited;
    }
    DistinctSetSize(visited);
    assert (set x | x in visited) == Pairs(conn);
    if ScopedInjective(scoped) {
      forall i, j | 0 <= i < j < |links|
        ensures links[i] != links[j]
      {
        assert visited[i] != visited[j];
      }
    }
  }

  /** The pairs of the connection map are the pairs some team lists together. */
  lemma PairsJoin(ks: seq<EntityKey>, teams: map<EntityKey, Team>)
    requires Enumerates(ks, teams)
    ensures Pairs(Connections(ks, teams)) == JoinPairs(teams)
  {
    var c := Connections(ks, teams);
    ConnectionsSpec(ks, teams);
    forall m, r | (m, r) in JoinPairs(teams)
      ensures (m, r) in Pairs(c)
    {
      var k :| k in teams && m in teams[k].members && r in teams[k].repos;
      assert teams[k].repos != [];
    }
  }

  /**
    What the contributors/repos view holds: one node per contributor and per
    repo, carrying its record, and one link for each distinct (member, repo)
    pair some team lists together and for nothing else, no link twice when ids
    render keys injectively.
   */
  ghost predicate ContributorsReposView(scoped: ScopedId, store: Store, g: GraphData) {
    && |g.nodes| == |store.contributors| + |store.repos|
    && (forall n :: n in g.nodes <==>
         || (exists k | k in store.contributors :: n == ContributorNode(scoped(k), store.contributors[k]))
         || (exists k | k in store.repos :: n == RepoNode(scoped(k), store.repos[k])))
    && (forall m, r | (m, r) in JoinPairs(store.teams) :: ContributorRepoLink(scoped, m, r) in g.links)
    && (forall l | l in g.links ::
         exists m, r | (m, r) in JoinPairs(store.teams) :: l == ContributorRepoLink(scoped, m, r))
    && |g.links| == |JoinPairs(store.teams)|
    && (ScopedInjective(scoped) ==> Distinct(g.links))
  }

  /**
    `build_contributors_repos_graph`: contributors and repos, and one link per
    distinct (member, repo) pair some team lists together.
   */
  method ContributorsRepos(scoped: ScopedId, store: Store, order: Order) returns (g: GraphData)
    requires Iterates(order, store)
    ensures |g.nodes| == |store.contributors| + |store.repos|
    ensures forall n :: n in g.nodes <==>
      || (exists k | k in store.contributors :: n == ContributorNode(scoped(k), store.contributors[k]))
      || (exists k | k in store.repos :: n == RepoNode(scoped(k), store.repos[k]))
    ensures forall m, r | (m, r) in JoinPairs(store.teams) :: ContributorRepoLink(scoped, m, r) in g.links
    ensures forall l | l in g.links ::
      exists m, r | (m, r) in JoinPairs(store.teams) :: l == ContributorRepoLink(scoped, m, r)
    ensures |g.links| == |JoinPairs(store.teams)|
    ensures ScopedInjective(scoped) ==> Distinct(g.links)
    ensures MembersResolve(store) && ReposResolve(store) ==> Closed(g)
  {
    var conn := Connections(order.teams, store.teams);
    var links := ConnectionLinks(scoped, conn);
    PairsJoin(order.teams, store.teams);
    LinksOverPairs(scoped, conn, JoinPairs(store.teams), links);
    g := GraphData(ContributorsReposNodes(scoped, store, order), links);
    ContributorsReposNodesSpec(scoped, store, order);
    if MembersResolve(store) && ReposResolve(store) {
      JoinLinksClosed(scoped, store, order, links);
    }
  }

  /** The link loop's promises restated over a set equal to the map's pairs. */
  lemma LinksOverPairs(scoped: ScopedId, conn: RepoReach, pairs: set<(string, string)>, links: seq<GraphLink>)
    requires Pairs(conn) == pairs
    requires forall m, r | m in conn && r in conn[m] :: ContributorRepoLink(scoped, m, r) in links
    requires forall l | l in links :: exists m, r | m in conn && r in conn[m] :: l == ContributorRepoLink(scoped, m, r)
    ensures forall m, r | (m, r) in pairs :: ContributorRepoLink(scoped, m, r) in links
    ensures forall l | l in links :: exists m, r | (m, r) in pairs :: l == ContributorRepoLink(scoped, m, r)
  {
    forall m, r | (m, r) in pairs
      ensures ContributorRepoLink(scoped, m, r) in links
    {
      assert (m, r) in Pairs(conn);
    }
    forall l | l in links
      ensures exists m, r | (m, r) in pairs :: l == ContributorRepoLink(scoped, m, r)
    {
      var m, r :| m in conn && r in conn[m] && l == ContributorRepoLink(scoped, m, r);
      assert (m, r) in Pairs(conn);
    }
  }

  /** The nodes of the contributors/repos view: contributors, then repos. */
  function ContributorsReposNodes(scoped: ScopedId, store: Store, order: Order): seq<GraphNode> {
    FlatMapEntries(order.contributors, store.contributors, NodeOf(MakeContributor(scoped)))
    + FlatMapEntries(order.repos, store.repos, NodeOf(MakeRepo(scoped)))
  }

  /** One node per contributor and per repo, each carrying its record. */
  lemma ContributorsReposNodesSpec(scoped: ScopedId, store: Store, order: Order)
    requires Iterates(order, store)
    ensures |ContributorsReposNodes(scoped, store, order)| == |store.contributors| + |store.repos|
    ensures forall n :: n in ContributorsReposNodes(scoped, store, order) <==>
      || (exists k | k in store.contributors :: n == ContributorNode(scoped(k), store.contributors[k]))
      || (exists k | k in store.repos :: n == RepoNode(scoped(k), store.repos[k]))
  {
    NodesOf(order.contributors, store.contributors, MakeContributor(scoped));
    NodesOf(order.repos, store.repos, MakeRepo(scoped));
  }

  /** Links between resolved pairs join nodes of the contributors/repos view. */
  lemma JoinLinksClosed(scoped: ScopedId, store: Store, order: Order, links: seq<GraphLink>)
    requires Iterates(order, store)
    requires MembersResolve(store) && ReposResolve(store)
    requires forall l | l in links ::
      exists m, r | (m, r) in JoinPairs(store.teams) :: l == ContributorRepoLink(scoped, m, r)
    ensures Closed(GraphData(ContributorsReposNodes(scoped, store, order), links))
  {
    var a := FlatMapEntries(order.contributors, store.contributors, NodeOf(MakeContributor(scoped)));
    var b := FlatMapEntries(order.repos, store.repos, NodeOf(MakeRepo(scoped)));
    var g := GraphData(a + b, links);
    NodeIdsAppend(a, b);
    NodeIdsOf(scoped, order.contributors, store.contributors, MakeContributor(scoped));
    NodeIdsOf(scoped, order.repos, store.repos, MakeRepo(scoped));
    forall l | l in links
      ensures l.source in Ids(g) && l.target in Ids(g)
    {
      var m, r :| (m, r) in JoinPairs(store.teams) && l == ContributorRepoLink(scoped, m, r);
      var k :| k in store.teams && m in store.teams[k].members && r in store.teams[k].repos;
      assert ContributorKey(m) in store.contributors && RepoKey(r) in store.repos;
    }
  }

  /** `build_graph_data`: the three views under their JSON keys; it never fails. */
  method BuildGraphData(scoped: ScopedId, store: Store, order: Order) returns (views: GraphViews)
    requires Iterates(order, store)
    ensures views.default == ContributorsTeams(scoped, store, order)
    ensures views.teamsRepos == TeamsRepos(scoped, store, order)
    ensures ContributorsReposView(scoped, store, views.contributorsRepos)
    ensures AllReferencesResolve(store) ==>
      Closed(views.default) && Closed(views.teamsRepos) && Closed(views.contributorsRepos)
    ensures WellKinded(store) && ScopedInjective(scoped) && Closed(views.default) && Closed(views.teamsRepos)
      ==> AllReferencesResolve(store)
  {
    var cr := ContributorsRepos(scoped, store, order);
    views := GraphViews(ContributorsTeams(scoped, store, order), TeamsRepos(scoped, store, order), cr);
    assert AllReferencesResolve(store) <==> MembersResolve(store) && ReposResolve(store);
    ContributorsTeamsClosed(scoped, store, order);
    TeamsReposClosed(scoped, store, order);
  }
}
