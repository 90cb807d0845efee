/**
  Records of the governance data set and of the validation report.

  The loader turns every TOML file of the `contributors`, `teams` and `repos`
  directories into one record, keyed by the loader's kind tag and the file stem.  The
  validator reports its findings per file, under the path that file occupies.
 */
module Model {
  import opened Collections

  datatype Option<T> = None | Some(value: T)

  /** The loader's key for a record: its kind tag and its file stem. */
  datatype EntityKey = EntityKey(kind: string, name: string)

  const ContributorKind := "contributor"
  const TeamKind := "team"
  const RepoKind := "repo"

  /** Key under which a team member reference is looked up. */
  function ContributorKey(name: string): EntityKey {
    EntityKey(ContributorKind, name)
  }

  /** Key under which a team repo reference is looked up. */
  function RepoKey(name: string): EntityKey {
    EntityKey(RepoKind, name)
  }

  /**
    How an `EntityKey` is rendered by its `Display` implementation.  That
    implementation is not part of this model, so it is a parameter everywhere.
   */
  type Display = EntityKey -> string

  /** The three directories of the data set. */
  datatype Section = Contributors | Teams | Repos {
    function Dir(): string {
      match this
      case Contributors => "contributors"
      case Teams => "teams"
      case Repos => "repos"
    }

    /** Kind tag the loader gives to the records of this directory. */
    function Kind(): string {
      match this
      case Contributors => ContributorKind
      case Teams => TeamKind
      case Repos => RepoKind
    }

    /** The file a record is reported under: its directory, the key as displayed, and `.toml`. */
    function Path(show: Display, key: EntityKey): string {
      Dir() + "/" + show(key) + ".toml"
    }
  }

  datatype Contributor = Contributor(name: string, githubUsername: string)

  /** Members and repos are lists: order is kept and duplicates are possible. */
  datatype Team = Team(name: string, members: seq<string>, repos: seq<string>)

  datatype Repo = Repo(
    name: string,
    website: Option<string>,
    websites: Option<seq<string>>,
    description: Option<string>)

  /** Why a GitHub lookup could not decide whether a user exists. */
  datatype Failure =
    | Forbidden
    | UnexpectedStatus(code: nat)
    | Transport

  /**
    The text of a finding, reduced to the identifiers it embeds.  `Other` stands
    for messages of checks this model leaves out.
   */
  datatype Message =
    | FileNameMismatch(section: Section, fileName: string, declared: string)
    | UnknownContributor(team: string, member: string)
    | UnknownRepo(team: string, repo: string)
    | GithubUserMissing(username: string)
    | GithubCheckFailed(username: string, reason: Failure)
    | Other(text: string)

  /** A definite integrity violation; it makes its file invalid. */
  datatype ValidationError = ValidationError(file: string, message: Message)

  /** An inconclusive check; it never makes a file invalid. */
  datatype ValidationWarning = ValidationWarning(file: string, message: Message)

  datatype FileValidationMessages = FileValidationMessages(
    errors: seq<ValidationError>,
    warnings: seq<ValidationWarning>)

  /** A file with no message yet. */
  const NoMessages := FileValidationMessages([], [])

  datatype ValidationStatistics = ValidationStatistics(
    contributorsCount: nat,
    teamsCount: nat,
    reposCount: nat,
    validFilesCount: nat,
    invalidFilesCount: nat,
    totalErrors: nat,
    totalWarnings: nat)

  datatype ValidationReport = ValidationReport(
    valid: bool,
    stats: ValidationStatistics,
    files: map<string, FileValidationMessages>)

  /** The loader's output: one map per directory. */
  datatype Store = Store(
    contributors: map<EntityKey, Contributor>,
    teams: map<EntityKey, Team>,
    repos: map<EntityKey, Repo>)

  /** The order in which each of the three maps happens to be iterated. */
  datatype Order = Order(
    contributors: seq<EntityKey>,
    teams: seq<EntityKey>,
    repos: seq<EntityKey>)

  /** `order` lists every key of every map of `store` exactly once. */
  ghost predicate Iterates(order: Order, store: Store) {
    && Enumerates(order.contributors, store.contributors)
    && Enumerates(order.teams, store.teams)
    && Enumerates(order.repos, store.repos)
  }

  /**
    Every key carries the kind tag of the directory it was loaded from, as the
    loader builds them.
   */
  ghost predicate WellKinded(store: Store) {
    && (forall k | k in store.contributors :: k.kind == ContributorKind)
    && (forall k | k in store.teams :: k.kind == TeamKind)
    && (forall k | k in store.repos :: k.kind == RepoKind)
  }

  /**
    Lookups build keys with the loader's kind tag, so in a well-kinded store a
    key lookup is the same as asking whether some record has that file stem:
    whether the kind takes part in key equality makes no difference.
   */
  lemma LookupByName(store: Store, name: string)
    requires WellKinded(store)
    ensures ContributorKey(name) in store.contributors <==> exists k | k in store.contributors :: k.name == name
    ensures RepoKey(name) in store.repos <==> exists k | k in store.repos :: k.name == name
  {
    if exists k | k in store.contributors :: k.name == name {
      var k :| k in store.contributors && k.name == name;
      assert k == ContributorKey(name);
    }
    if exists k | k in store.repos :: k.name == name {
      var k :| k in store.repos && k.name == name;
      assert k == RepoKey(name);
    }
  }

  /** Paths of different directories never coincide; within one, they coincide iff the keys display alike. */
  lemma PathInjective(s1: Section, s2: Section, show: Display, k1: EntityKey, k2: EntityKey)
    ensures s1.Path(show, k1) == s2.Path(show, k2) <==> s1 == s2 && show(k1) == show(k2)
  {
    var p1, p2 := s1.Path(show, k1), s2.Path(show, k2);
    if p1 == p2 {
      assert p1[0] == s1.Dir()[0] && p2[0] == s2.Dir()[0];
      assert s1 == s2;
      var n := |s1.Dir()| + 1;
      assert |show(k1)| == |show(k2)|;
      assert show(k1) == p1[n..|p1| - 5];
      assert show(k2) == p2[n..|p2| - 5];
    }
  }
}
