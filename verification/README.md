# Governance data set: validator and visualizer graph, in Dafny

The governance repository keeps one TOML file per contributor, team and repo
under `contributors/`, `teams/` and `repos/`. Two programs read that data set:

* the **governance validator** checks it and prints a report. It checks that
  every file name matches the identity declared inside the file. It checks that
  every team member and team repo refers to a loaded record. It checks that
  every contributor's GitHub account exists. Every finding is filed under the
  path of the file it concerns. The run fails iff some file holds an error.
* the **visualizer** builds three graph views of the data set:
  contributors–teams, teams–repos and contributors–repos.

This project models the checks, the validator's driver and the graph builder
as pure functions over immutable maps. It proves what each computes. It also
proves that the result does not depend on the orders Rust leaves open: the
iteration order of a `HashMap`, and the completion order of concurrent GitHub
lookups.

Modules:

* `Collections` (`collections.dfy`): generic sequence and map tools.
  * An *enumeration* `ks` of a map's keys stands for one `HashMap` iteration
    order.
  * `FlatMap`/`FlatMapEntries` model a `for` loop that pushes onto a `Vec`.
    `Filter` and `Count` keep or count the elements that satisfy a predicate.
  * `SumValues` is an ordered sum over an enumeration.
  * Lemmas relate these to order-free references: `SumMap`, `Selected`, and
    multiset equality.
* `Model` (`model.dfy`): the records and the report types.
  * `EntityKey`, `Contributor`, `Team`, `Repo`, and the validation report types.
  * `Store`: the three loaded maps. `Order`: one enumeration per map.
  * `Display`: how a key is rendered into a path. It is a parameter `show`,
    since its implementation is not part of this model.
* `Checks` (`checks.dfy`): `validate_file_names`, `validate_cross_references`,
  the status table of `check_github_user_exists`, and `validate_github_users`.
  * A lookup's HTTP response is an input.
  * The push loop submits one lookup per contributor (`Submitted`). The
    `FuturesUnordered` completion order is a sequence `done` of completions
    that is a permutation of the submitted lookups (`CompletionOrder`), so it
    completes every contributor's lookup once.
* `Report` (`report.dfy`): the validator's driver.
  * `insert_error`/`insert_warning` file findings into a ledger, which is
    seeded with one empty entry per loaded record.
  * The driver files the checks' findings in the order it runs them. It then
    computes the statistics with the folds of `main`, and decides pass or fail.
* `Graph` (`graph.dfy`): the three views and `build_graph_data`.
  * Node ids and link ends are `scoped_id` renderings, a parameter `scoped`.
  * Properties that need distinct keys to render distinctly require
    `ScopedInjective(scoped)`.

Where the sources disagree with each other, the model follows the code that
performs each check:

* `model.rs` names the contributor's GitHub field `github`, while `checks.rs`
  reads `github_username`. The model has one field, `githubUsername`, and
  every check reads it.
* `EntityKey`'s definition is not shown in the sources. The loader builds it from
  a kind tag and a file stem (`loader.rs:25-28`), and lookups build it the same
  way (`checks.rs:74-77`, `checks.rs:95-98`). So `EntityKey` is a datatype of
  those two fields with structural equality.
* `WellKinded(store)` states the loader's guarantee that every key carries its
  directory's tag. Under it, `Model.LookupByName` shows that the kind plays no
  part in a lookup.

## Model

| member | source | states |
|---|---|---|
| Model.LookupByName | meta/validators/governance/src/checks.rs:72-100 | in a store whose keys carry the loader's kind tags, looking up the key built from a member or repo name succeeds iff some loaded record has that file stem |
| Model.PathInjective | meta/validators/governance/src/main.rs:50-70 | the reported paths of two records coincide iff they are in the same directory and their keys display alike |
| Checks.MismatchPartMember | meta/validators/governance/src/checks.rs:19-29 | an error is in one directory's part iff it is the mismatch error of a record whose stem differs from its declared identity |
| Checks.MismatchPartSection | meta/validators/governance/src/checks.rs:18-58 | each directory's loop only reports file-name mismatches of that directory |
| Checks.MismatchPartFlagged | meta/validators/governance/src/checks.rs:19-29 | a record is reported, under its own path with its stem and declared identity, iff the two differ |
| Checks.MismatchPartCount | meta/validators/governance/src/checks.rs:19-29 | one directory's loop yields exactly one error per mismatched record, hence at most one per record |
| Checks.FileNamesFlagged | meta/validators/governance/src/checks.rs:10-61 | for all three directories, a record is reported iff its stem differs from its GitHub username, team name or repo name; every reported error is such a record's |
| Checks.FileNamesFlaggedRecords | meta/validators/governance/src/checks.rs:18-58 | the per-record half of that iff, directory by directory |
| Checks.FileNamesFlaggedErrors | meta/validators/governance/src/checks.rs:18-58 | every reported error is the mismatch error of some mismatched record |
| Checks.FileNamesCount | meta/validators/governance/src/checks.rs:10-61 | the number of errors is the number of mismatched records, at most the number of records |
| Checks.FileNamesEmpty | meta/validators/governance/src/checks.rs:10-61 | no file-name error iff every record's stem matches its declared identity |
| Checks.FileNamesOrderFree | meta/validators/governance/src/checks.rs:19-58 | any two iteration orders of the maps give the same errors up to order |
| Checks.RefChecksMember | meta/validators/governance/src/checks.rs:73-89 | one team yields an error exactly for each listed name that does not resolve |
| Checks.RefChecksAll | meta/validators/governance/src/checks.rs:72-90 | over all teams, an error is reported iff it is some team's error for one of its unresolved names |
| Checks.RefChecksCount | meta/validators/governance/src/checks.rs:72-90 | one error per unresolved list entry, repeated entries included: the count is the sum over teams of their dangling entries |
| Checks.CrossReferencesFlagged | meta/validators/governance/src/checks.rs:63-114 | a team's member (repo) reference is reported iff no contributor (repo) has that key; every error is under a team's path and names one of its dangling references |
| Checks.CrossReferencesCount | meta/validators/governance/src/checks.rs:63-114 | the number of errors is the number of dangling member entries plus dangling repo entries |
| Checks.CrossReferencesEmpty | meta/validators/governance/src/checks.rs:63-114 | no cross-reference error iff every member and repo of every team resolves |
| Checks.FlaggedEmpty | meta/validators/governance/src/checks.rs:79-101 | errors that flag exactly the dangling references are absent iff nothing dangles |
| Checks.CrossReferencesOrderFree | meta/validators/governance/src/checks.rs:72-111 | any two iteration orders of the teams give the same errors up to order |
| Checks.GithubRequest | meta/validators/governance/src/checks.rs:117-124 | the request targets the users API for the username and carries the validator's User-Agent; it carries a bearer credential iff the token is non-empty, and that credential is the token |
| Checks.CheckGithubUser | meta/validators/governance/src/checks.rs:126-134 | 200 means the user exists and 404 that it does not; 403, any other status and a failed send are inconclusive, each with its own reason |
| Checks.SubmittedSpec | meta/validators/governance/src/checks.rs:145-151 | the push loop submits no lookup twice, and submits a lookup for a key and username iff that key is a contributor's and the username is its own |
| Checks.GithubOneLookupEach | meta/validators/governance/src/checks.rs:143-153 | when the push loop submits one lookup per contributor with its username and the drain loop receives those lookups in any order, each contributor's lookup completes exactly once, carrying its username, so there are as many completions as contributors |
| Checks.GithubErrorsExact | meta/validators/governance/src/checks.rs:153-159 | an error is reported exactly for each lookup that came back 404, under that contributor's path and naming the username, and there are as many errors as such lookups |
| Checks.GithubWarningsExact | meta/validators/governance/src/checks.rs:160-167 | a warning is reported exactly for each inconclusive lookup, carrying its reason, and there are as many warnings as such lookups |
| Checks.GithubFindingsBound | meta/validators/governance/src/checks.rs:137-172 | at most one finding per contributor, and every finding is filed under a contributor's path |
| Checks.GithubFindingsCount | meta/validators/governance/src/checks.rs:153-169 | errors and warnings together number at most the contributors |
| Checks.GithubFindingsFiles | meta/validators/governance/src/checks.rs:156-161 | every GitHub finding is filed under a loaded contributor's path |
| Checks.GithubCompletionOrderFree | meta/validators/governance/src/checks.rs:144-153 | any completion order gives the same errors and warnings up to order |
| Checks.GithubErrorsEmpty | meta/validators/governance/src/checks.rs:153-171 | no GitHub error iff no lookup came back 404 |
| Report.InsertError | meta/validators/governance/src/main.rs:18-24 | filing an error creates its file's entry if missing, appends the error to that entry's errors, and changes nothing else |
| Report.InsertWarning | meta/validators/governance/src/main.rs:26-32 | filing a warning creates its file's entry if missing, appends the warning to that entry's warnings, and changes nothing else |
| Report.InsertErrorsContents | meta/validators/governance/src/main.rs:73-75 | filing a stream of errors appends to each file exactly the errors naming it, in stream order, and leaves warnings alone |
| Report.InsertWarningsContents | meta/validators/governance/src/main.rs:89-91 | filing a stream of warnings appends to each file exactly the warnings naming it, and leaves errors alone |
| Report.InsertErrorsKeys | meta/validators/governance/src/main.rs:73-75 | filing errors adds an entry for every file they name, and no other |
| Report.InsertWarningsKeys | meta/validators/governance/src/main.rs:89-91 | filing warnings adds an entry for every file they name, and no other |
| Report.InsertErrorsTotals | meta/validators/governance/src/main.rs:73-75 | filing errors raises the ledger's error total by their number and leaves the warning total alone |
| Report.InsertWarningsTotals | meta/validators/governance/src/main.rs:89-91 | filing warnings raises the warning total by their number and leaves the error total alone |
| Report.InsertErrorsValidity | meta/validators/governance/src/main.rs:73-75 | after filing errors, the ledger is error-free iff it was and none were filed |
| Report.InsertWarningsValidity | meta/validators/governance/src/main.rs:89-91 | filing warnings never changes whether the ledger is error-free |
| Report.Seed | meta/validators/governance/src/main.rs:50-70 | the seeded ledger has an empty entry for each loaded record's path, and only those; it is error-free with zero totals |
| Report.SectionPathsSize | meta/validators/governance/src/main.rs:50-57 | a directory seeds one path per record when its keys display distinctly |
| Report.SectionPathsRemove | meta/validators/governance/src/main.rs:50-57 | removing a record from a distinctly displayed directory removes exactly its path |
| Report.SectionPathsDisjoint | meta/validators/governance/src/main.rs:50-70 | two directories never seed the same path |
| Report.SeedSize | meta/validators/governance/src/main.rs:50-70 | with keys displayed distinctly per directory, the seeded ledger has exactly one entry per loaded record |
| Report.FileFindingsContents | meta/validators/governance/src/main.rs:85-91 | filing one check's errors and then its warnings appends to each file the findings naming it |
| Report.FileFindingsTotals | meta/validators/governance/src/main.rs:85-91 | filing one check's findings raises the totals by their numbers |
| Report.FileFindingsValidity | meta/validators/governance/src/main.rs:85-91 | after filing one check's findings, the ledger is error-free iff it was and the check found no error |
| Report.FileFindingsKeys | meta/validators/governance/src/main.rs:85-91 | filing one check's findings adds exactly the files they name |
| Report.StructuralContents | meta/validators/governance/src/main.rs:72-80 | after the two structural checks, each file holds the structural errors naming it, in order, and no warning |
| Report.FiledErrorsTwice | meta/validators/governance/src/main.rs:72-80 | filing two error streams on an empty entry leaves it the errors of both that name it, in order |
| Report.FileNamesFiles | meta/validators/governance/src/main.rs:72-75 | file-name errors are filed only under seeded paths |
| Report.CrossReferencesFiles | meta/validators/governance/src/main.rs:77-80 | cross-reference errors are filed only under seeded paths |
| Report.StructuralKeys | meta/validators/governance/src/main.rs:50-80 | the structural checks add no file to the seeded ledger |
| Report.StructuralTotals | meta/validators/governance/src/main.rs:72-80 | after the structural checks, the error total is their number of errors and there are no warnings |
| Report.StructuralValidity | meta/validators/governance/src/main.rs:72-80 | after the structural checks, the ledger is error-free iff every name matches and every reference resolves |
| Report.ErrorsTwiceValidity | meta/validators/governance/src/main.rs:72-80 | filing two error streams on an error-free ledger keeps it error-free iff both are empty |
| Report.FiledTwiceContents | meta/validators/governance/src/main.rs:84-100 | filing the GitHub and then the Slack findings appends to each file the findings of both that name it, in driver order |
| Report.AggregateContents | meta/validators/governance/src/main.rs:50-100 | each file ends up holding exactly the findings naming it, in the order the checks produced them |
| Report.AggregateTotals | meta/validators/governance/src/main.rs:103-104 | the ledger's error and warning totals are the numbers of errors and warnings all checks produced |
| Report.AggregateValid | meta/validators/governance/src/main.rs:50-100 | the final ledger is error-free iff all names match, all references resolve, no lookup came back 404 and the Slack check found no error; warnings play no part |
| Report.FiledTwiceKeys | meta/validators/governance/src/main.rs:84-100 | filing a check that names only existing files, then another check, adds exactly the second check's files |
| Report.AggregateKeys | meta/validators/governance/src/main.rs:50-100 | the final ledger's files are the loaded records' paths plus the files the Slack check named |
| Report.AggregateOrderFree | meta/validators/governance/src/main.rs:50-100 | neither map iteration order nor lookup completion order changes which findings a file holds, only their order |
| Report.TallyStep | meta/validators/governance/src/main.rs:103-113 | one more file adds its own numbers of errors and warnings, and counts as invalid iff it holds an error |
| Report.Tally | meta/validators/governance/src/main.rs:103-113 | the totals are the order-free sums of per-file counts; invalid counts the files holding an error, and valid plus invalid is the number of files |
| Report.ErrorFreeMeasures | meta/validators/governance/src/main.rs:103-126 | a ledger is error-free iff no file is invalid iff its error total is zero |
| Report.BuildReport | meta/validators/governance/src/main.rs:103-129 | the statistics count the records, sum the ledger and count invalid files; the report is valid iff the ledger is error-free iff the error total is zero |
| Report.ConcludeMeasures | meta/validators/governance/src/main.rs:169-175 | for a report built from a ledger, the run fails exactly when the report is not valid, and then with a positive error count and a positive invalid-file count |
| Report.Validate | meta/validators/governance/src/main.rs:35-179 | a run passes iff all names match, all references resolve, no GitHub user is missing and the Slack check found no error; the run passes iff the report is valid; the report counts the records, every error and warning filed, and the invalid files, with valid plus invalid files equal to the files in the ledger; a failure reports the positive numbers of errors and of invalid files |
| Graph.NodesOf | meta/visualizer/src/graph.rs:67-72 | one directory's node loop yields exactly one node per record, carrying it |
| Graph.NodeIdsOf | meta/visualizer/src/graph.rs:67-72 | one directory's nodes carry exactly the scoped ids of its keys |
| Graph.ListLinksOne | meta/visualizer/src/graph.rs:81-92 | one team yields a link from itself to the scoped id of each name on its list |
| Graph.ListLinksMember | meta/visualizer/src/graph.rs:75-93 | over all teams, a link exists iff some team lists a name and the link joins that team to that name's key |
| Graph.ListLinksCount | meta/visualizer/src/graph.rs:75-93 | one link per list entry, repeated entries included |
| Graph.ContributorsTeamsNodes | meta/visualizer/src/graph.rs:62-80 | the contributors/teams view has one node per contributor and per team, each carrying its record |
| Graph.ContributorsTeamsIds | meta/visualizer/src/graph.rs:62-80 | its node ids are exactly the scoped ids of the contributors and teams |
| Graph.ContributorsTeamsLinks | meta/visualizer/src/graph.rs:81-92 | a team-member link goes from a team to each listed member's contributor key, whether or not it exists; there is one per member entry |
| Graph.TeamsReposNodes | meta/visualizer/src/graph.rs:98-116 | the teams/repos view has one node per team and per repo, each carrying its record |
| Graph.TeamsReposIds | meta/visualizer/src/graph.rs:98-116 | its node ids are exactly the scoped ids of the teams and repos |
| Graph.TeamsReposLinks | meta/visualizer/src/graph.rs:118-132 | a team-repo link goes from a team to each listed repo's key; there is one per repo entry |
| Graph.ListViewClosed | meta/visualizer/src/graph.rs:62-135 | a list-following view has no dangling link when every listed name resolves; with distinct ids and disjoint kinds, only then |
| Graph.ContributorsTeamsClosed | meta/visualizer/src/graph.rs:62-96 | the contributors/teams view has no dangling link if every member resolves, and only if, for a well-kinded store and distinct ids |
| Graph.TeamsReposClosed | meta/visualizer/src/graph.rs:98-135 | the teams/repos view has no dangling link if every team repo resolves, and only if, for a well-kinded store and distinct ids |
| Graph.ListViewsOrderFree | meta/visualizer/src/graph.rs:62-135 | any iteration order of the maps gives the same nodes and links up to order |
| Graph.ConnectSpec | meta/visualizer/src/graph.rs:147-152 | inserting one member's repos touches only that member's entry, creating it only when there is a repo |
| Graph.ConnectTeamSpec | meta/visualizer/src/graph.rs:146-153 | after one team, each of its members reaches each of its repos as well as what it reached before |
| Graph.ConnectStepSpec | meta/visualizer/src/graph.rs:145-153 | one team folded in: its members gain entries if it has a repo, and reach its repos |
| Graph.ConnectAllKeys | meta/visualizer/src/graph.rs:142-154 | after the teams, the members with an entry are those listed by a team with at least one repo |
| Graph.ConnectAllReach | meta/visualizer/src/graph.rs:142-154 | after the teams, a member reaches exactly the repos of the teams listing it |
| Graph.ConnectAllSpec | meta/visualizer/src/graph.rs:142-154 | both of the above, for every member |
| Graph.ConnectionsSpec | meta/visualizer/src/graph.rs:142-154 | a member has an entry iff some team lists it and has a repo; it reaches a repo iff some team lists both |
| Graph.ConnectionsOrderFree | meta/visualizer/src/graph.rs:145 | the connection map does not depend on the order teams are visited |
| Graph.ConnectionLinks | meta/visualizer/src/graph.rs:173-191 | one contributor-repo link per pair of the connection map, each pair visited once; no link repeats when ids are distinct |
| Graph.LinksOfPairs | meta/visualizer/src/graph.rs:173-191 | a walk that visited every pair once has produced exactly one link per pair |
| Graph.PairsJoin | meta/visualizer/src/graph.rs:142-154 | the connection map's pairs are exactly the (member, repo) pairs some team lists together |
| Graph.ContributorsReposNodesSpec | meta/visualizer/src/graph.rs:156-170 | the contributors/repos view has one node per contributor and per repo, each carrying its record |
| Graph.ContributorsRepos | meta/visualizer/src/graph.rs:137-194 | one link per distinct (member, repo) pair some team lists together, each with the contributor-repo shape; links are distinct when ids are; no link dangles when all references resolve |
| Graph.JoinLinksClosed | meta/visualizer/src/graph.rs:156-191 | when every reference resolves, each contributor-repo link joins two nodes of the view |
| Graph.BuildGraphData | meta/visualizer/src/graph.rs:197-210 | the three views under their keys: the first two as built by their builders, the contributors-repos view with one node per contributor and per repo and exactly one link per distinct (member, repo) pair some team lists together, distinct when ids are; all are closed when every reference resolves, and for a well-kinded store with distinct ids the first two are closed only then |

## Left out

- Loading the TOML files (`loader.rs`). The three maps are inputs.
- The workspace-root check and `process::exit` (`main.rs:39-43`).
- Printing the summary, errors and warnings, and all colouring (`main.rs:131-167`). The message text is reduced to the identifiers it embeds.
- `validate_slack_ids` is not part of this model. Its errors and warnings are an opaque `Findings` input, which the driver files like every other check's.
- The HTTP client, the network and the `GITHUB_TOKEN` environment variable. The variable's value and each lookup's response are inputs, and `Checks.GithubRequest` models only the request that is built.
- The scheduling of `FuturesUnordered`. The model takes any completion order in which every contributor's lookup completes once; the HTTP timing that picks the order is not modelled.
- The text of anyhow errors. An inconclusive lookup keeps only its reason: forbidden, unexpected status, or transport failure.
- `EntityKey`'s `Display` and `scoped_id` implementations. Both are parameters.
  * `Report.SeedSize` requires each directory's keys to display distinctly.
  * The "only if" halves of the graph closure lemmas and `Graph.ConnectionLinks`' distinctness require `scoped` to be injective.
- The serde/JSON encoding of the graph views and of the report, and the visualizer's `main.rs`, which writes them.
- The commit-message validator (`meta/validators/commit`). It is not part of this core.
- `usize` overflow of the counters. Every count here is a `nat`; the data set would need more than 2^64 findings to overflow.
- Report.Tally: the walk visits the ledger in one given enumeration of its keys. The result is proved equal to the order-free sums, but the model does not show that `HashMap::values()` yields such an enumeration.
