/**
  The governance checks: file names against declared identities, team references
  against loaded records, and GitHub usernames against the GitHub users API.

  Each check walks the maps of the store in their iteration order; the lemmas
  show that which findings are produced does not depend on that order.
 */
module Checks {
  import opened Collections
  import opened Model

  // ===========================================================================
  // File names

  /** The error reported when a record's file stem differs from its declared identity. */
  function MismatchError(section: Section, show: Display, key: EntityKey, declared: string): ValidationError {
    ValidationError(section.Path(show, key), FileNameMismatch(section, key.name, declared))
  }

  /** Findings for one record whose declared identity is `declared`: one error iff it differs from the stem. */
  function Mismatch(section: Section, show: Display, key: EntityKey, declared: string): seq<ValidationError> {
    if key.name != declared then [MismatchError(section, show, key, declared)] else []
  }

  /** The file-name check of one directory, whose records declare their identity through `declared`. */
  function MismatchOf<V>(section: Section, show: Display, declared: V -> string): (EntityKey, V) -> seq<ValidationError> {
    (k, v) => Mismatch(section, show, k, declared(v))
  }

  /** A contributor's declared identity is its GitHub username. */
  function GithubIdentity(c: Contributor): string {
    c.githubUsername
  }

  function TeamName(t: Team): string {
    t.name
  }

  function RepoName(r: Repo): string {
    r.name
  }

  /** `validate_file_names`: contributors, then teams, then repos. */
  function ValidateFileNames(show: Display, store: Store, order: Order): seq<ValidationError> {
    FlatMapEntries(order.contributors, store.contributors, MismatchOf(Contributors, show, GithubIdentity))
    + FlatMapEntries(order.teams, store.teams, MismatchOf(Teams, show, TeamName))
    + FlatMapEntries(order.repos, store.repos, MismatchOf(Repos, show, RepoName))
  }

  /** Keys of `m` whose file stem differs from the record's declared identity. */
  ghost function Mismatched<V>(m: map<EntityKey, V>, declared: V -> string): set<EntityKey> {
    Selected(m, Differs(declared))
  }

  /** Whether a record's file stem differs from its declared identity. */
  function Differs<V>(declared: V -> string): (EntityKey, V) -> bool {
    (k: EntityKey, v: V) => k.name != declared(v)
  }

  ghost predicate AllNamesMatch(store: Store) {
    && Mismatched(store.contributors, GithubIdentity) == {}
    && Mismatched(store.teams, TeamName) == {}
    && Mismatched(store.repos, RepoName) == {}
  }

  /** One directory's part of the result, described record by record. */
  lemma MismatchPartMember<V>(section: Section, show: Display, ks: seq<EntityKey>, m: map<EntityKey, V>,
                              declared: V -> string, e: ValidationError)
    requires Enumerates(ks, m)
    ensures e in FlatMapEntries(ks, m, MismatchOf(section, show, declared)) <==>
      exists k | k in Mismatched(m, declared) :: e == MismatchError(section, show, k, declared(m[k]))
  {
    FlatMapEntriesMember(ks, m, MismatchOf(section, show, declared), e);
  }

  /** One directory's part only holds file-name errors of that directory. */
  lemma MismatchPartSection<V>(section: Section, show: Display, ks: seq<EntityKey>, m: map<EntityKey, V>,
                               declared: V -> string)
    requires Enumerates(ks, m)
    ensures forall e | e in FlatMapEntries(ks, m, MismatchOf(section, show, declared)) ::
      e.message.FileNameMismatch? && e.message.section == section
  {
    forall e | e in FlatMapEntries(ks, m, MismatchOf(section, show, declared))
      ensures e.message.FileNameMismatch? && e.message.section == section
    {
      MismatchPartMember(section, show, ks, m, declared, e);
    }
  }

  /** A record of the directory is reported iff its stem differs from its declared identity. */
  lemma MismatchPartFlagged<V>(section: Section, show: Display, ks: seq<EntityKey>, m: map<EntityKey, V>,
                               declared: V -> string, k: EntityKey)
    requires Enumerates(ks, m) && k in m
    ensures MismatchError(section, show, k, declared(m[k])) in FlatMapEntries(ks, m, MismatchOf(section, show, declared))
      <==> k.name != declared(m[k])
  {
    MismatchPartMember(section, show, ks, m, declared, MismatchError(section, show, k, declared(m[k])));
  }

  /** One directory's part has one error per mismatched record. */
  lemma MismatchPartCount<V>(section: Section, show: Display, ks: seq<EntityKey>, m: map<EntityKey, V>,
                             declared: V -> string)
    requires Enumerates(ks, m)
    ensures |FlatMapEntries(ks, m, MismatchOf(section, show, declared))| == |Mismatched(m, declared)|
    ensures |Mismatched(m, declared)| <= |m|
  {
    var f := MismatchOf(section, show, declared);
    forall k, v ensures |f(k, v)| == if Differs(declared)(k, v) then 1 else 0 {
    }
    FlatMapEntriesCount(ks, m, f, Differs(declared));
    SubsetSize(Mismatched(m, declared), m);
  }

  /**
    A record is reported, under its own directory's path and naming both its
    stem and its declared identity, iff the two differ; every reported error is
    such a record.
   */
  lemma FileNamesFlagged(show: Display, store: Store, order: Order)
    requires Iterates(order, store)
    ensures forall k | k in store.contributors ::
      MismatchError(Contributors, show, k, store.contributors[k].githubUsername) in ValidateFileNames(show, store, order)
      <==> k.name != store.contributors[k].githubUsername
    ensures forall k | k in store.teams ::
      MismatchError(Teams, show, k, store.teams[k].name) in ValidateFileNames(show, store, order)
      <==> k.name != store.teams[k].name
    ensures forall k | k in store.repos ::
      MismatchError(Repos, show, k, store.repos[k].name) in ValidateFileNames(show, store, order)
      <==> k.name != store.repos[k].name
    ensures forall e | e in ValidateFileNames(show, store, order) ::
      || (exists k | k in Mismatched(store.contributors, GithubIdentity) ::
            e == MismatchError(Contributors, show, k, store.contributors[k].githubUsername))
      || (exists k | k in Mismatched(store.teams, TeamName) :: e == MismatchError(Teams, show, k, store.teams[k].name))
      || (exists k | k in Mismatched(store.repos, RepoName) :: e == MismatchError(Repos, show, k, store.repos[k].name))
  {
    FileNamesFlaggedRecords(show, store, order);
    FileNamesFlaggedErrors(show, store, order);
  }

  lemma FileNamesFlaggedRecords(show: Display, store: Store, order: Order)
    requires Iterates(order, store)
    ensures forall k | k in store.contributors ::
      MismatchError(Contributors, show, k, store.contributors[k].githubUsername) in ValidateFileNames(show, store, order)
      <==> k.name != store.contributors[k].githubUsername
    ensures forall k | k in store.teams ::
      MismatchError(Teams, show, k, store.teams[k].name) in ValidateFileNames(show, store, order)
      <==> k.name != store.teams[k].name
    ensures forall k | k in store.repos ::
      MismatchError(Repos, show, k, store.repos[k].name) in ValidateFileNames(show, store, order)
      <==> k.name != store.repos[k].name
  {
    var cs, ts, rs := store.contributors, store.teams, store.repos;
    MismatchPartSection(Contributors, show, order.contributors, cs, GithubIdentity);
    MismatchPartSection(Teams, show, order.teams, ts, TeamName);
    MismatchPartSection(Repos, show, order.repos, rs, RepoName);
    forall k | k in cs {
      MismatchPartFlagged(Contributors, show, order.contributors, cs, GithubIdentity, k);
    }
    forall k | k in ts {
      MismatchPartFlagged(Teams, show, order.teams, ts, TeamName, k);
    }
    forall k | k in rs {
      MismatchPartFlagged(Repos, show, order.repos, rs, RepoName, k);
    }
  }

  lemma FileNamesFlaggedErrors(show: Display, store: Store, order: Order)
    requires Iterates(order, store)
    ensures forall e | e in ValidateFileNames(show, store, order) ::
      || (exists k | k in Mismatched(store.contributors, GithubIdentity) ::
            e == MismatchError(Contributors, show, k, store.contributors[k].githubUsername))
      || (exists k | k in Mismatched(store.teams, TeamName) :: e == MismatchError(Teams, show, k, store.teams[k].name))
      || (exists k | k in Mismatched(store.repos, RepoName) :: e == MismatchError(Repos, show, k, store.repos[k].name))
  {
    var cs, ts, rs := store.contributors, store.teams, store.repos;
    forall e | e in ValidateFileNames(show, store, order)
      ensures || (exists k | k in Mismatched(cs, GithubIdentity) :: e == MismatchError(Contributors, show, k, cs[k].githubUsername))
              || (exists k | k in Mismatched(ts, TeamName) :: e == MismatchError(Teams, show, k, ts[k].name))
              || (exists k | k in Mismatched(rs, RepoName) :: e == MismatchError(Repos, show, k, rs[k].name))
    {
      MismatchPartMember(Contributors, show, order.contributors, cs, GithubIdentity, e);
      MismatchPartMember(Teams, show, order.teams, ts, TeamName, e);
      MismatchPartMember(Repos, show, order.repos, rs, RepoName, e);
    }
  }

  /** Every record contributes at most one error, so the count is the number of mismatched records. */
  lemma FileNamesCount(show: Display, store: Store, order: Order)
    requires Iterates(order, store)
    ensures |ValidateFileNames(show, store, order)| == |Mismatched(store.contributors, GithubIdentity)|
      + |Mismatched(store.teams, TeamName)| + |Mismatched(store.repos, RepoName)|
    ensures |ValidateFileNames(show, store, order)| <= |store.contributors| + |store.teams| + |store.repos|
  {
    MismatchPartCount(Contributors, show, order.contributors, store.contributors, GithubIdentity);
    MismatchPartCount(Teams, show, order.teams, store.teams, TeamName);
    MismatchPartCount(Repos, show, order.repos, store.repos, RepoName);
  }

  /** No file-name error is reported iff every record's file stem matches its identity. */
  lemma FileNamesEmpty(show: Display, store: Store, order: Order)
    requires Iterates(order, store)
    ensures ValidateFileNames(show, store, order) == [] <==> AllNamesMatch(store)
  {
    FileNamesCount(show, store, order);
  }

  /** Whatever order the maps are iterated in, the same errors are reported. */
  lemma FileNamesOrderFree(show: Display, store: Store, o1: Order, o2: Order)
    requires Iterates(o1, store) && Iterates(o2, store)
    ensures multiset(ValidateFileNames(show, store, o1)) == multiset(ValidateFileNames(show, store, o2))
  {
    FlatMapEntriesOrderFree(o1.contributors, o2.contributors, store.contributors, MismatchOf(Contributors, show, GithubIdentity));
    FlatMapEntriesOrderFree(o1.teams, o2.teams, store.teams, MismatchOf(Teams, show, TeamName));
    FlatMapEntriesOrderFree(o1.repos, o2.repos, store.repos, MismatchOf(Repos, show, RepoName));
  }

  // ===========================================================================
  // Cross references

  function UnknownMemberError(show: Display): (EntityKey, string) -> ValidationError {
    (team: EntityKey, member: string) => ValidationError(Teams.Path(show, team), UnknownContributor(team.name, member))
  }

  function UnknownRepoError(show: Display): (EntityKey, string) -> ValidationError {
    (team: EntityKey, repo: string) => ValidationError(Teams.Path(show, team), UnknownRepo(team.name, repo))
  }

  /** Whether a member reference has a contributor record. */
  function KnownContributor(contributors: map<EntityKey, Contributor>): string -> bool {
    m => ContributorKey(m) in contributors
  }

  /** Whether a repo reference has a repo record. */
  function KnownRepo(repos: map<EntityKey, Repo>): string -> bool {
    r => RepoKey(r) in repos
  }

  function Members(t: Team): seq<string> {
    t.members
  }

  function ReposOf(t: Team): seq<string> {
    t.repos
  }

  /** One reference of team `team`: an error, built by `report`, iff it is not `known`. */
  function RefFinding(known: string -> bool, report: (EntityKey, string) -> ValidationError, team: EntityKey): string -> seq<ValidationError> {
    r => if known(r) then [] else [report(team, r)]
  }

  /** One team's references of one kind (`refs`), in list order. */
  function RefChecks(known: string -> bool, report: (EntityKey, string) -> ValidationError, refs: Team -> seq<string>): (EntityKey, Team) -> seq<ValidationError> {
    (k, t: Team) => FlatMap(refs(t), RefFinding(known, report, k))
  }

  function MemberChecks(show: Display, store: Store): (EntityKey, Team) -> seq<ValidationError> {
    RefChecks(KnownContributor(store.contributors), UnknownMemberError(show), Members)
  }

  function RepoChecks(show: Display, store: Store): (EntityKey, Team) -> seq<ValidationError> {
    RefChecks(KnownRepo(store.repos), UnknownRepoError(show), ReposOf)
  }

  /** `validate_cross_references`: all member references of all teams, then all repo references. */
  function ValidateCrossReferences(show: Display, store: Store, order: Order): seq<ValidationError> {
    FlatMapEntries(order.teams, store.teams, MemberChecks(show, store))
    + FlatMapEntries(order.teams, store.teams, RepoChecks(show, store))
  }

  /** Number of unknown references of one kind (repetitions included) in one team. */
  function Dangling(known: string -> bool, refs: Team -> seq<string>): Team -> nat {
    (t: Team) => Count(refs(t), (r: string) => !known(r))
  }

  ghost predicate AllReferencesResolve(store: Store) {
    forall k | k in store.teams ::
      && (forall m | m in store.teams[k].members :: ContributorKey(m) in store.contributors)
      && (forall r | r in store.teams[k].repos :: RepoKey(r) in store.repos)
  }

  /** The references of one kind of one team that are reported. */
  lemma RefChecksMember(known: string -> bool, report: (EntityKey, string) -> ValidationError,
                        refs: Team -> seq<string>, k: EntityKey, t: Team, e: ValidationError)
    ensures e in RefChecks(known, report, refs)(k, t) <==> exists r | r in refs(t) :: !known(r) && e == report(k, r)
  {
    FlatMapMember(refs(t), RefFinding(known, report, k), e);
  }

  /** The references of one kind over all teams that are reported. */
  lemma RefChecksAll(known: string -> bool, report: (EntityKey, string) -> ValidationError,
                     refs: Team -> seq<string>, ks: seq<EntityKey>, teams: map<EntityKey, Team>, e: ValidationError)
    requires Enumerates(ks, teams)
    ensures e in FlatMapEntries(ks, teams, RefChecks(known, report, refs)) <==>
      exists k, r | k in teams && r in refs(teams[k]) :: !known(r) && e == report(k, r)
  {
    FlatMapEntriesMember(ks, teams, RefChecks(known, report, refs), e);
    forall k | k in teams
      ensures e in RefChecks(known, report, refs)(k, teams[k]) <==>
        exists r | r in refs(teams[k]) :: !known(r) && e == report(k, r)
    {
      RefChecksMember(known, report, refs, k, teams[k], e);
    }
  }

  /** The number of reported references of one kind over all teams. */
  lemma RefChecksCount(known: string -> bool, report: (EntityKey, string) -> ValidationError,
                       refs: Team -> seq<string>, ks: seq<EntityKey>, teams: map<EntityKey, Team>)
    requires Enumerates(ks, teams)
    ensures |FlatMapEntries(ks, teams, RefChecks(known, report, refs))| == SumMap(teams, Dangling(known, refs))
  {
    forall k, t: Team
      ensures |RefChecks(known, report, refs)(k, t)| == Dangling(known, refs)(t)
    {
      FlatMapCount(refs(t), RefFinding(known, report, k), (r: string) => !known(r));
    }
    FlatMapEntriesLength(ks, teams, RefChecks(known, report, refs), Dangling(known, refs));
    SumValuesEnumeration(ks, teams, Dangling(known, refs));
  }

  /**
    A reference is reported, under the owning team's path and naming the missing
    record, iff no record answers it; every reported error is such a reference.
   */
  lemma CrossReferencesFlagged(show: Display, store: Store, order: Order)
    requires Iterates(order, store)
    ensures forall k, m | k in store.teams && m in store.teams[k].members ::
      UnknownMemberError(show)(k, m) in ValidateCrossReferences(show, store, order)
      <==> ContributorKey(m) !in store.contributors
    ensures forall k, r | k in store.teams && r in store.teams[k].repos ::
      UnknownRepoError(show)(k, r) in ValidateCrossReferences(show, store, order)
      <==> RepoKey(r) !in store.repos
    ensures forall e | e in ValidateCrossReferences(show, store, order) ::
      exists k | k in store.teams :: (
        && e.file == Teams.Path(show, k)
        && ((exists m | m in store.teams[k].members ::
               ContributorKey(m) !in store.contributors && e == UnknownMemberError(show)(k, m))
            || (exists r | r in store.teams[k].repos :: RepoKey(r) !in store.repos && e == UnknownRepoError(show)(k, r))))
  {
    var ts, known, knownRepo := store.teams, KnownContributor(store.contributors), KnownRepo(store.repos);
    var mp := FlatMapEntries(order.teams, ts, MemberChecks(show, store));
    var rp := FlatMapEntries(order.teams, ts, RepoChecks(show, store));
    assert ValidateCrossReferences(show, store, order) == mp + rp;
    forall k, m | k in ts && m in ts[k].members
      ensures UnknownMemberError(show)(k, m) in mp + rp <==> ContributorKey(m) !in store.contributors
    {
      var e := UnknownMemberError(show)(k, m);
      RefChecksAll(known, UnknownMemberError(show), Members, order.teams, ts, e);
      RefChecksAll(knownRepo, UnknownRepoError(show), ReposOf, order.teams, ts, e);
    }
    forall k, r | k in ts && r in ts[k].repos
      ensures UnknownRepoError(show)(k, r) in mp + rp <==> RepoKey(r) !in store.repos
    {
      var e := UnknownRepoError(show)(k, r);
      RefChecksAll(known, UnknownMemberError(show), Members, order.teams, ts, e);
      RefChecksAll(knownRepo, UnknownRepoError(show), ReposOf, order.teams, ts, e);
    }
    forall e: ValidationError | e in mp + rp
      ensures exists k | k in ts :: (
        && e.file == Teams.Path(show, k)
        && ((exists m | m in ts[k].members :: ContributorKey(m) !in store.contributors && e == UnknownMemberError(show)(k, m))
            || (exists r | r in ts[k].repos :: RepoKey(r) !in store.repos && e == UnknownRepoError(show)(k, r))))
    {
      RefChecksAll(known, UnknownMemberError(show), Members, order.teams, ts, e);
      RefChecksAll(knownRepo, UnknownRepoError(show), ReposOf, order.teams, ts, e);
    }
  }

  /** Each unknown reference occurrence, repeated ones included, yields its own error. */
  lemma CrossReferencesCount(show: Display, store: Store, order: Order)
    requires Iterates(order, store)
    ensures |ValidateCrossReferences(show, store, order)|
      == SumMap(store.teams, Dangling(KnownContributor(store.contributors), Members))
       + SumMap(store.teams, Dangling(KnownRepo(store.repos), ReposOf))
  {
    RefChecksCount(KnownContributor(store.contributors), UnknownMemberError(show), Members, order.teams, store.teams);
    RefChecksCount(KnownRepo(store.repos), UnknownRepoError(show), ReposOf, order.teams, store.teams);
  }

  /** No cross-reference error is reported iff every reference resolves. */
  lemma CrossReferencesEmpty(show: Display, store: Store, order: Order)
    requires Iterates(order, store)
    ensures ValidateCrossReferences(show, store, order) == [] <==> AllReferencesResolve(store)
  {
    CrossReferencesFlagged(show, store, order);
    FlaggedEmpty(show, store, ValidateCrossReferences(show, store, order));
  }

  /** Errors that flag exactly the dangling references are absent iff nothing dangles. */
  lemma FlaggedEmpty(show: Display, store: Store, r: seq<ValidationError>)
    requires forall k, m | k in store.teams && m in store.teams[k].members ::
      UnknownMemberError(show)(k, m) in r <==> ContributorKey(m) !in store.contributors
    requires forall k, x | k in store.teams && x in store.teams[k].repos ::
      UnknownRepoError(show)(k, x) in r <==> RepoKey(x) !in store.repos
    requires forall e | e in r ::
      exists k | k in store.teams :: (
        && e.file == Teams.Path(show, k)
        && ((exists m | m in store.teams[k].members ::
               ContributorKey(m) !in store.contributors && e == UnknownMemberError(show)(k, m))
            || (exists x | x in store.teams[k].repos :: RepoKey(x) !in store.repos && e == UnknownRepoError(show)(k, x))))
    ensures r == [] <==> AllReferencesResolve(store)
  {
    if !AllReferencesResolve(store) {
      var k :| k in store.teams && !(
        && (forall m | m in store.teams[k].members :: ContributorKey(m) in store.contributors)
        && (forall x | x in store.teams[k].repos :: RepoKey(x) in store.repos));
      if exists m | m in store.teams[k].members :: ContributorKey(m) !in store.contributors {
        var m :| m in store.teams[k].members && ContributorKey(m) !in store.contributors;
        assert UnknownMemberError(show)(k, m) in r;
      } else {
        var x :| x in store.teams[k].repos && RepoKey(x) !in store.repos;
        assert UnknownRepoError(show)(k, x) in r;
      }
    }
    if r != [] {
      assert r[0] in r;
    }
  }

  /** Whatever order the teams are iterated in, the same errors are reported. */
  lemma CrossReferencesOrderFree(show: Display, store: Store, o1: Order, o2: Order)
    requires Iterates(o1, store) && Iterates(o2, store)
    ensures multiset(ValidateCrossReferences(show, store, o1)) == multiset(ValidateCrossReferences(show, store, o2))
  {
    FlatMapEntriesOrderFree(o1.teams, o2.teams, store.teams, MemberChecks(show, store));
    FlatMapEntriesOrderFree(o1.teams, o2.teams, store.teams, RepoChecks(show, store));
  }

  // ===========================================================================
  // GitHub users

  const GithubUsersApi := "https://api.github.com/users/"
  const UserAgent := "ScottyLabs-Governance-Validator"

  datatype Header = Header(name: string, value: string)

  datatype Request = Get(url: string, headers: seq<Header>)

  /** The GitHub token from the environment, empty when the variable is unset. */
  function GithubToken(env: Option<string>): string {
    match env
    case Some(t) => t
    case None => ""
  }

  /**
    The request issued for one username.  The token is attached as a bearer
    credential only when it is non-empty; without one the request still goes out.
   */
  function GithubRequest(username: string, env: Option<string>): (r: Request)
    ensures r.url == GithubUsersApi + username
    ensures |r.headers| > 0 && r.headers[0] == Header("User-Agent", UserAgent)
    ensures (exists h | h in r.headers :: h.name == "Authorization") <==> GithubToken(env) != ""
    ensures forall h | h in r.headers && h.name == "Authorization" :: h.value == "Bearer " + GithubToken(env)
  {
    var plain := Get(GithubUsersApi + username, [Header("User-Agent", UserAgent)]);
    var token := GithubToken(env);
    if token == "" then plain
    else plain.(headers := plain.headers + [Header("Authorization", "Bearer " + token)])
  }

  /** What came back for one request: an HTTP status, or a failure to send it at all. */
  datatype Response = Status(code: nat) | SendFailed

  /** What `check_github_user_exists` concludes: the user exists, does not exist, or the lookup failed for a reason. */
  datatype Lookup = Exists | Absent | Inconclusive(reason: Failure)

  /** The status table of `check_github_user_exists`. */
  function CheckGithubUser(response: Response): (r: Lookup)
    ensures r == Exists <==> response == Status(200)
    ensures r == Absent <==> response == Status(404)
    ensures r.Inconclusive? <==> response != Status(200) && response != Status(404)
    ensures r == Inconclusive(Forbidden) <==> response == Status(403)
    ensures r == Inconclusive(Transport) <==> response == SendFailed
    ensures r.Inconclusive? && r.reason.UnexpectedStatus? <==>
      response.Status? && response.code !in {200, 403, 404}
    ensures r.Inconclusive? && r.reason.UnexpectedStatus? ==> response == Status(r.reason.code)
  {
    match response
    case SendFailed => Inconclusive(Transport)
    case Status(code) =>
      if code == 200 then Exists
      else if code == 404 then Absent
      else if code == 403 then Inconclusive(Forbidden)
      else Inconclusive(UnexpectedStatus(code))
  }

  /** One finished lookup, as the future yields it: whose it was, the username, the response. */
  datatype Completion = Completion(key: EntityKey, username: string, response: Response)

  function CompletedKeys(done: seq<Completion>): seq<EntityKey> {
    seq(|done|, i requires 0 <= i < |done| => done[i].key)
  }

  /**
    `done` is one possible completion order of the lookups: one completion per
    contributor, carrying that contributor's username.
   */
  ghost predicate CompletesAll(done: seq<Completion>, contributors: map<EntityKey, Contributor>) {
    && Enumerates(CompletedKeys(done), contributors)
    && forall i | 0 <= i < |done| :: done[i].key in contributors && done[i].username == contributors[done[i].key].githubUsername
  }

  function MissingUserError(show: Display, c: Completion): ValidationError {
    ValidationError(Contributors.Path(show, c.key), GithubUserMissing(c.username))
  }

  function LookupWarning(show: Display, c: Completion, reason: Failure): ValidationWarning {
    ValidationWarning(Contributors.Path(show, c.key), GithubCheckFailed(c.username, reason))
  }

  function GithubError(show: Display): Completion -> seq<ValidationError> {
    (c: Completion) => if CheckGithubUser(c.response) == Absent then [MissingUserError(show, c)] else []
  }

  function GithubWarning(show: Display): Completion -> seq<ValidationWarning> {
    (c: Completion) => match CheckGithubUser(c.response)
         case Inconclusive(reason) => [LookupWarning(show, c, reason)]
         case _ => []
  }

  function IsAbsent(c: Completion): bool {
    CheckGithubUser(c.response) == Absent
  }

  function IsInconclusive(c: Completion): bool {
    CheckGithubUser(c.response).Inconclusive?
  }

  datatype Findings = Findings(errors: seq<ValidationError>, warnings: seq<ValidationWarning>)

  /** `validate_github_users`: the lookups' results, folded in completion order. */
  function ValidateGithubUsers(show: Display, done: seq<Completion>): Findings {
    Findings(FlatMap(done, GithubError(show)), FlatMap(done, GithubWarning(show)))
  }

  /** The future one contributor pushes: its key and the username it looks up. */
  function SubmitLookup(k: EntityKey, c: Contributor): seq<(EntityKey, string)> {
    [(k, c.githubUsername)]
  }

  /** The push loop: one lookup per contributor, in the map's iteration order `ks`. */
  function Submitted(ks: seq<EntityKey>, contributors: map<EntityKey, Contributor>): seq<(EntityKey, string)> {
    FlatMapEntries(ks, contributors, SubmitLookup)
  }

  /** What the drain loop learns of each completion besides the response: whose lookup, which username. */
  function Drained(done: seq<Completion>): seq<(EntityKey, string)> {
    seq(|done|, i requires 0 <= i < |done| => (done[i].key, done[i].username))
  }

  /**
    `done` is what the drain loop receives when the lookups were pushed in the
    order `ks`: every pushed future yields once, in an order the program does
    not choose.
   */
  ghost predicate CompletionOrder(done: seq<Completion>, ks: seq<EntityKey>, contributors: map<EntityKey, Contributor>) {
    && Enumerates(ks, contributors)
    && multiset(Drained(done)) == multiset(Submitted(ks, contributors))
  }

  /** Over keys of the map, the push loop submits the `i`-th key's lookup at position `i`. */
  lemma {:induction false} SubmittedAt(ks: seq<EntityKey>, contributors: map<EntityKey, Contributor>)
    requires forall k | k in ks :: k in contributors
    ensures |Submitted(ks, contributors)| == |ks|
    ensures forall i | 0 <= i < |ks| :: Submitted(ks, contributors)[i] == (ks[i], contributors[ks[i]].githubUsername)
  {
    if ks != [] {
      SubmittedAt(ks[1..], contributors);
      assert AtKey(contributors, SubmitLookup)(ks[0]) == [(ks[0], contributors[ks[0]].githubUsername)];
      assert Submitted(ks, contributors) == [(ks[0], contributors[ks[0]].githubUsername)] + Submitted(ks[1..], contributors);
    }
  }

  /** The pushed lookups are distinct, and are exactly the contributors with their usernames. */
  lemma SubmittedSpec(ks: seq<EntityKey>, contributors: map<EntityKey, Contributor>)
    requires Enumerates(ks, contributors)
    ensures Distinct(Submitted(ks, contributors))
    ensures forall p :: p in Submitted(ks, contributors) <==> p.0 in contributors && p.1 == contributors[p.0].githubUsername
  {
    var sub := Submitted(ks, contributors);
    SubmittedAt(ks, contributors);
    forall p
      ensures p in sub <==> p.0 in contributors && p.1 == contributors[p.0].githubUsername
    {
      if p.0 in contributors && p.1 == contributors[p.0].githubUsername {
        var i :| 0 <= i < |ks| && ks[i] == p.0;
        assert sub[i] == p;
      }
    }
  }

  /**
    However the lookups finish, the drain loop sees each contributor's lookup
    exactly once, carrying that contributor's username: there are as many
    completions as contributors.
   */
  lemma GithubOneLookupEach(done: seq<Completion>, ks: seq<EntityKey>, contributors: map<EntityKey, Contributor>)
    requires CompletionOrder(done, ks, contributors)
    ensures CompletesAll(done, contributors)
    ensures |done| == |contributors|
    ensures forall k | k in contributors :: exists i | 0 <= i < |done| :: done[i].key == k
    ensures forall i, j | 0 <= i < j < |done| :: done[i].key != done[j].key
  {
    SubmittedSpec(ks, contributors);
    DrainedCompletes(done, Submitted(ks, contributors), contributors);
    CompletesAllSize(done, contributors);
  }

  /** Completions that permute the distinct lookups of every contributor complete each lookup once. */
  lemma DrainedCompletes(done: seq<Completion>, sub: seq<(EntityKey, string)>, contributors: map<EntityKey, Contributor>)
    requires multiset(Drained(done)) == multiset(sub) && Distinct(sub)
    requires forall p :: p in sub <==> p.0 in contributors && p.1 == contributors[p.0].githubUsername
    ensures CompletesAll(done, contributors)
  {
    var seen := Drained(done);
    forall i | 0 <= i < |done|
      ensures done[i].key in contributors && done[i].username == contributors[done[i].key].githubUsername
    {
      assert seen[i] in multiset(seen);
      assert seen[i] in sub;
    }
    PermutationDistinct(seen, sub);
    forall i, j | 0 <= i < j < |done|
      ensures CompletedKeys(done)[i] != CompletedKeys(done)[j]
    {
      assert seen[i] != seen[j];
    }
    forall k | k in contributors
      ensures k in CompletedKeys(done)
    {
      var p := (k, contributors[k].githubUsername);
      assert p in multiset(sub);
      var i :| 0 <= i < |seen| && seen[i] == p;
      assert CompletedKeys(done)[i] == k;
    }
  }

  /** A completion sequence that completes every lookup once has one entry per contributor, each key once. */
  lemma CompletesAllSize(done: seq<Completion>, contributors: map<EntityKey, Contributor>)
    requires CompletesAll(done, contributors)
    ensures |done| == |contributors|
    ensures forall k | k in contributors :: exists i | 0 <= i < |done| :: done[i].key == k
    ensures forall i, j | 0 <= i < j < |done| :: done[i].key != done[j].key
  {
    EnumerationSize(CompletedKeys(done), contributors);
    forall k | k in contributors
      ensures exists i | 0 <= i < |done| :: done[i].key == k
    {
      var i :| 0 <= i < |done| && CompletedKeys(done)[i] == k;
    }
    forall i, j | 0 <= i < j < |done|
      ensures done[i].key != done[j].key
    {
      assert CompletedKeys(done)[i] == done[i].key && CompletedKeys(done)[j] == done[j].key;
    }
  }

  /** A 404 yields one error under the contributor's path; nothing else yields an error. */
  lemma GithubErrorsExact(show: Display, done: seq<Completion>)
    ensures forall c | c in done && IsAbsent(c) :: MissingUserError(show, c) in ValidateGithubUsers(show, done).errors
    ensures forall e | e in ValidateGithubUsers(show, done).errors ::
      exists c | c in done :: IsAbsent(c) && e == MissingUserError(show, c)
    ensures |ValidateGithubUsers(show, done).errors| == Count(done, IsAbsent)
  {
    var f := GithubError(show);
    forall c | c in done && IsAbsent(c)
      ensures MissingUserError(show, c) in FlatMap(done, f)
    {
      FlatMapMember(done, f, MissingUserError(show, c));
      assert MissingUserError(show, c) in f(c);
    }
    forall e | e in FlatMap(done, f)
      ensures exists c | c in done :: IsAbsent(c) && e == MissingUserError(show, c)
    {
      FlatMapMember(done, f, e);
    }
    forall c ensures |f(c)| == if IsAbsent(c) then 1 else 0 {
    }
    FlatMapCount(done, f, IsAbsent);
  }

  /** An inconclusive lookup yields one warning naming its reason; nothing else yields a warning. */
  lemma GithubWarningsExact(show: Display, done: seq<Completion>)
    ensures forall c | c in done && IsInconclusive(c) ::
      LookupWarning(show, c, CheckGithubUser(c.response).reason) in ValidateGithubUsers(show, done).warnings
    ensures forall w | w in ValidateGithubUsers(show, done).warnings ::
      exists c | c in done :: IsInconclusive(c) && w == LookupWarning(show, c, CheckGithubUser(c.response).reason)
    ensures |ValidateGithubUsers(show, done).warnings| == Count(done, IsInconclusive)
  {
    var f := GithubWarning(show);
    forall c | c in done && IsInconclusive(c)
      ensures LookupWarning(show, c, CheckGithubUser(c.response).reason) in FlatMap(done, f)
    {
      var w := LookupWarning(show, c, CheckGithubUser(c.response).reason);
      FlatMapMember(done, f, w);
      assert w in f(c);
    }
    forall w | w in FlatMap(done, f)
      ensures exists c | c in done :: IsInconclusive(c) && w == LookupWarning(show, c, CheckGithubUser(c.response).reason)
    {
      FlatMapMember(done, f, w);
    }
    forall c ensures |f(c)| == if IsInconclusive(c) then 1 else 0 {
    }
    FlatMapCount(done, f, IsInconclusive);
  }

  /** At most one message per contributor, and every message is filed under a contributor's path. */
  lemma GithubFindingsBound(show: Display, done: seq<Completion>, contributors: map<EntityKey, Contributor>)
    requires CompletesAll(done, contributors)
    ensures |ValidateGithubUsers(show, done).errors| + |ValidateGithubUsers(show, done).warnings| <= |contributors|
    ensures forall e | e in ValidateGithubUsers(show, done).errors ::
      exists k | k in contributors :: e.file == Contributors.Path(show, k)
    ensures forall w | w in ValidateGithubUsers(show, done).warnings ::
      exists k | k in contributors :: w.file == Contributors.Path(show, k)
  {
    GithubFindingsCount(show, done, contributors);
    GithubFindingsFiles(show, done, contributors);
  }

  lemma GithubFindingsCount(show: Display, done: seq<Completion>, contributors: map<EntityKey, Contributor>)
    requires CompletesAll(done, contributors)
    ensures |ValidateGithubUsers(show, done).errors| + |ValidateGithubUsers(show, done).warnings| <= |contributors|
  {
    GithubErrorsExact(show, done);
    GithubWarningsExact(show, done);
    EnumerationSize(CompletedKeys(done), contributors);
    CountDisjoint(done, IsAbsent, IsInconclusive);
  }

  lemma GithubFindingsFiles(show: Display, done: seq<Completion>, contributors: map<EntityKey, Contributor>)
    requires CompletesAll(done, contributors)
    ensures forall e | e in ValidateGithubUsers(show, done).errors ::
      exists k | k in contributors :: e.file == Contributors.Path(show, k)
    ensures forall w | w in ValidateGithubUsers(show, done).warnings ::
      exists k | k in contributors :: w.file == Contributors.Path(show, k)
  {
    GithubErrorsExact(show, done);
    GithubWarningsExact(show, done);
    forall c | c in done
      ensures c.key in contributors
    {
      var i :| 0 <= i < |done| && done[i] == c;
      assert CompletedKeys(done)[i] == c.key;
    }
  }

  /** The order in which lookups complete does not change what is reported, only its order. */
  lemma GithubCompletionOrderFree(show: Display, d1: seq<Completion>, d2: seq<Completion>)
    requires multiset(d1) == multiset(d2)
    ensures multiset(ValidateGithubUsers(show, d1).errors) == multiset(ValidateGithubUsers(show, d2).errors)
    ensures multiset(ValidateGithubUsers(show, d1).warnings) == multiset(ValidateGithubUsers(show, d2).warnings)
  {
    FlatMapPermutation(d1, d2, GithubError(show));
    FlatMapPermutation(d1, d2, GithubWarning(show));
  }

  /** No GitHub error is reported iff no lookup came back 404. */
  lemma GithubErrorsEmpty(show: Display, done: seq<Completion>)
    ensures ValidateGithubUsers(show, done).errors == [] <==> forall c | c in done :: !IsAbsent(c)
  {
    GithubErrorsExact(show, done);
    CountZero(done, IsAbsent);
  }
}
