/**
  The governance validator's driver: the ledger of findings per file, the
  statistics computed over it, and the pass/fail decision.

  The ledger is seeded with one empty entry per loaded record, then every check's
  findings are filed under the path they name, in the order the driver runs the
  checks: file names, cross references, GitHub errors, GitHub warnings, Slack
  errors, Slack warnings.
 */
module Report {
  import opened Collections
  import opened Model
  import opened Checks

  /** Findings per file path. */
  type Ledger = map<string, FileValidationMessages>

  /** The messages of `path`, empty when it has none yet. */
  function Entry(files: Ledger, path: string): FileValidationMessages {
    if path in files then files[path] else NoMessages
  }

  // ===========================================================================
  // Filing findings

  /** `insert_error`: append `error` to its file's errors, creating the entry when missing. */
  function InsertError(files: Ledger, error: ValidationError): (r: Ledger)
    ensures r.Keys == files.Keys + {error.file}
    ensures Entry(r, error.file).errors == Entry(files, error.file).errors + [error]
    ensures Entry(r, error.file).warnings == Entry(files, error.file).warnings
    ensures forall p | p != error.file :: Entry(r, p) == Entry(files, p)
  {
    var cur := Entry(files, error.file);
    files[error.file := cur.(errors := cur.errors + [error])]
  }

  /** `insert_warning`: append `warning` to its file's warnings, creating the entry when missing. */
  function InsertWarning(files: Ledger, warning: ValidationWarning): (r: Ledger)
    ensures r.Keys == files.Keys + {warning.file}
    ensures Entry(r, warning.file).warnings == Entry(files, warning.file).warnings + [warning]
    ensures Entry(r, warning.file).errors == Entry(files, warning.file).errors
    ensures forall p | p != warning.file :: Entry(r, p) == Entry(files, p)
  {
    var cur := Entry(files, warning.file);
    files[warning.file := cur.(warnings := cur.warnings + [warning])]
  }

  /** Each error inserted in turn, in the order the check produced them. */
  function InsertErrors(files: Ledger, errors: seq<ValidationError>): Ledger
    decreases |errors|
  {
    if errors == [] then files else InsertErrors(InsertError(files, errors[0]), errors[1..])
  }

  /** Each warning inserted in turn, in the order the check produced them. */
  function InsertWarnings(files: Ledger, warnings: seq<ValidationWarning>): Ledger
    decreases |warnings|
  {
    if warnings == [] then files else InsertWarnings(InsertWarning(files, warnings[0]), warnings[1..])
  }

  function ErrorFor(path: string): ValidationError -> bool {
    (e: ValidationError) => e.file == path
  }

  function WarningFor(path: string): ValidationWarning -> bool {
    (w: ValidationWarning) => w.file == path
  }

  function ErrorFiles(errors: seq<ValidationError>): set<string> {
    set e | e in errors :: e.file
  }

  function WarningFiles(warnings: seq<ValidationWarning>): set<string> {
    set w | w in warnings :: w.file
  }

  function ErrorCount(m: FileValidationMessages): nat {
    |m.errors|
  }

  function WarningCount(m: FileValidationMessages): nat {
    |m.warnings|
  }

  /** No file of the ledger holds an error. */
  ghost predicate ErrorFree(files: Ledger) {
    forall p | p in files :: files[p].errors == []
  }

  /**
    Filing a stream of errors appends to each file exactly the errors that name
    it, in stream order, and leaves warnings alone.
   */
  lemma {:induction false} InsertErrorsContents(files: Ledger, errors: seq<ValidationError>, path: string)
    ensures Entry(InsertErrors(files, errors), path).errors == Entry(files, path).errors + Filter(errors, ErrorFor(path))
    ensures Entry(InsertErrors(files, errors), path).warnings == Entry(files, path).warnings
    decreases |errors|
  {
    if errors != [] {
      InsertErrorsContents(InsertError(files, errors[0]), errors[1..], path);
    }
  }

  /** Filing a stream of warnings appends to each file exactly the warnings that name it, and leaves errors alone. */
  lemma {:induction false} InsertWarningsContents(files: Ledger, warnings: seq<ValidationWarning>, path: string)
    ensures Entry(InsertWarnings(files, warnings), path).warnings
      == Entry(files, path).warnings + Filter(warnings, WarningFor(path))
    ensures Entry(InsertWarnings(files, warnings), path).errors == Entry(files, path).errors
    decreases |warnings|
  {
    if warnings != [] {
      InsertWarningsContents(InsertWarning(files, warnings[0]), warnings[1..], path);
    }
  }

  /** The ledger gains an entry for every file a filed error names, and no other. */
  lemma {:induction false} InsertErrorsKeys(files: Ledger, errors: seq<ValidationError>)
    ensures InsertErrors(files, errors).Keys == files.Keys + ErrorFiles(errors)
    decreases |errors|
  {
    if errors != [] {
      InsertErrorsKeys(InsertError(files, errors[0]), errors[1..]);
      assert ErrorFiles(errors) == {errors[0].file} + ErrorFiles(errors[1..]) by {
        assert forall e | e in errors :: e == errors[0] || e in errors[1..];
      }
    }
  }

  /** The ledger gains an entry for every file a filed warning names, and no other. */
  lemma {:induction false} InsertWarningsKeys(files: Ledger, warnings: seq<ValidationWarning>)
    ensures InsertWarnings(files, warnings).Keys == files.Keys + WarningFiles(warnings)
    decreases |warnings|
  {
    if warnings != [] {
      InsertWarningsKeys(InsertWarning(files, warnings[0]), warnings[1..]);
      assert WarningFiles(warnings) == {warnings[0].file} + WarningFiles(warnings[1..]) by {
        assert forall w | w in warnings :: w == warnings[0] || w in warnings[1..];
      }
    }
  }

  /** Filing errors adds each one to the error total and none to the warning total. */
  lemma {:induction false} InsertErrorsTotals(files: Ledger, errors: seq<ValidationError>)
    ensures SumMap(InsertErrors(files, errors), ErrorCount) == SumMap(files, ErrorCount) + |errors|
    ensures SumMap(InsertErrors(files, errors), WarningCount) == SumMap(files, WarningCount)
    decreases |errors|
  {
    if errors != [] {
      var e := errors[0];
      var next := InsertError(files, e);
      var cur := Entry(files, e.file);
      assert next == files[e.file := cur.(errors := cur.errors + [e])];
      SumMapUpdate(files, ErrorCount, e.file, cur.(errors := cur.errors + [e]));
      SumMapUpdate(files, WarningCount, e.file, cur.(errors := cur.errors + [e]));
      InsertErrorsTotals(next, errors[1..]);
    }
  }

  /** Filing warnings adds each one to the warning total and none to the error total. */
  lemma {:induction false} InsertWarningsTotals(files: Ledger, warnings: seq<ValidationWarning>)
    ensures SumMap(InsertWarnings(files, warnings), WarningCount) == SumMap(files, WarningCount) + |warnings|
    ensures SumMap(InsertWarnings(files, warnings), ErrorCount) == SumMap(files, ErrorCount)
    decreases |warnings|
  {
    if warnings != [] {
      var w := warnings[0];
      var next := InsertWarning(files, w);
      var cur := Entry(files, w.file);
      assert next == files[w.file := cur.(warnings := cur.warnings + [w])];
      SumMapUpdate(files, ErrorCount, w.file, cur.(warnings := cur.warnings + [w]));
      SumMapUpdate(files, WarningCount, w.file, cur.(warnings := cur.warnings + [w]));
      InsertWarningsTotals(next, warnings[1..]);
    }
  }

  /** A ledger stays error-free under filed errors iff there were none to file. */
  lemma InsertErrorsValidity(files: Ledger, errors: seq<ValidationError>)
    ensures ErrorFree(InsertErrors(files, errors)) <==> ErrorFree(files) && errors == []
  {
    var r := InsertErrors(files, errors);
    InsertErrorsKeys(files, errors);
    if errors != [] {
      var p := errors[0].file;
      InsertErrorsContents(files, errors, p);
      assert errors[0] in Filter(errors, ErrorFor(p)) by {
        FilterMember(errors, ErrorFor(p), errors[0]);
      }
      assert p in r && r[p].errors != [];
    } else if !ErrorFree(files) {
      var p :| p in files && files[p].errors != [];
      assert r[p].errors != [];
    }
  }

  /** Warnings never make a file invalid: filing them keeps every file's errors. */
  lemma InsertWarningsValidity(files: Ledger, warnings: seq<ValidationWarning>)
    ensures ErrorFree(InsertWarnings(files, warnings)) <==> ErrorFree(files)
  {
    var r := InsertWarnings(files, warnings);
    InsertWarningsKeys(files, warnings);
    forall p | p in r
      ensures r[p].errors == Entry(files, p).errors
    {
      InsertWarningsContents(files, warnings, p);
    }
    forall p | p in files
      ensures files[p].errors == r[p].errors
    {
      InsertWarningsContents(files, warnings, p);
    }
  }

  // ===========================================================================
  // Seeding

  /** Paths of every record of one directory. */
  function SectionPaths<V>(section: Section, show: Display, m: map<EntityKey, V>): set<string> {
    set k | k in m :: section.Path(show, k)
  }

  function SeedPaths(show: Display, store: Store): set<string> {
    SectionPaths(Contributors, show, store.contributors)
    + SectionPaths(Teams, show, store.teams)
    + SectionPaths(Repos, show, store.repos)
  }

  /** The initial ledger: one empty entry for each loaded record's file. */
  function Seed(show: Display, store: Store): (r: Ledger)
    ensures ErrorFree(r)
    ensures SumMap(r, ErrorCount) == 0 && SumMap(r, WarningCount) == 0
    ensures forall k | k in store.contributors :: Contributors.Path(show, k) in r
    ensures forall k | k in store.teams :: Teams.Path(show, k) in r
    ensures forall k | k in store.repos :: Repos.Path(show, k) in r
    ensures forall p | p in r ::
      || (exists k | k in store.contributors :: p == Contributors.Path(show, k))
      || (exists k | k in store.teams :: p == Teams.Path(show, k))
      || (exists k | k in store.repos :: p == Repos.Path(show, k))
  {
    var r := map p | p in SeedPaths(show, store) :: NoMessages;
    SumMapZero(r, ErrorCount);
    SumMapZero(r, WarningCount);
    r
  }

  /** `show` never renders two keys of one map alike. */
  ghost predicate ShowInjective<V>(show: Display, m: map<EntityKey, V>) {
    forall k1, k2 | k1 in m && k2 in m && show(k1) == show(k2) :: k1 == k2
  }

  /** One directory contributes one path per record when `show` is injective on it. */
  lemma {:induction false} SectionPathsSize<V>(section: Section, show: Display, m: map<EntityKey, V>)
    requires ShowInjective(show, m)
    ensures |SectionPaths(section, show, m)| == |m|
    decreases |m|
  {
    if m != map[] {
      var k := PickKey(m);
      var m' := m - {k};
      MapRemoveSize(m, k);
      assert ShowInjective(show, m');
      SectionPathsSize(section, show, m');
      SectionPathsRemove(section, show, m, k);
    }
  }

  /** Taking a record out of an injectively shown directory takes out exactly its path. */
  lemma SectionPathsRemove<V>(section: Section, show: Display, m: map<EntityKey, V>, k: EntityKey)
    requires ShowInjective(show, m) && k in m
    ensures SectionPaths(section, show, m) == SectionPaths(section, show, m - {k}) + {section.Path(show, k)}
    ensures section.Path(show, k) !in SectionPaths(section, show, m - {k})
  {
    var m' := m - {k};
    assert forall j | j in m :: j == k || j in m';
    forall j | j in m'
      ensures section.Path(show, j) != section.Path(show, k)
    {
      PathInjective(section, section, show, j, k);
    }
  }

  /** Two different directories never share a path. */
  lemma SectionPathsDisjoint<V, W>(s1: Section, s2: Section, show: Display, m1: map<EntityKey, V>, m2: map<EntityKey, W>)
    requires s1 != s2
    ensures SectionPaths(s1, show, m1) * SectionPaths(s2, show, m2) == {}
  {
    forall k1, k2 | k1 in m1 && k2 in m2
      ensures s1.Path(show, k1) != s2.Path(show, k2)
    {
      PathInjective(s1, s2, show, k1, k2);
    }
  }

  /** The union of two disjoint sets is as large as both together. */
  lemma DisjointUnionSize(a: set<string>, b: set<string>)
    requires a * b == {}
    ensures |a + b| == |a| + |b|
  {
  }

  /** The seeded ledger's files are exactly the loaded records' paths. */
  lemma SeedKeys(show: Display, store: Store)
    ensures Seed(show, store).Keys == SeedPaths(show, store)
  {
  }

  /** With `show` injective per directory, the seeded ledger has one entry per record. */
  lemma SeedSize(show: Display, store: Store)
    requires ShowInjective(show, store.contributors)
    requires ShowInjective(show, store.teams)
    requires ShowInjective(show, store.repos)
    ensures |Seed(show, store)| == |store.contributors| + |store.teams| + |store.repos|
  {
    var a := SectionPaths(Contributors, show, store.contributors);
    var b := SectionPaths(Teams, show, store.teams);
    var c := SectionPaths(Repos, show, store.repos);
    SectionPathsSize(Contributors, show, store.contributors);
    SectionPathsSize(Teams, show, store.teams);
    SectionPathsSize(Repos, show, store.repos);
    SectionPathsDisjoint(Contributors, Teams, show, store.contributors, store.teams);
    SectionPathsDisjoint(Contributors, Repos, show, store.contributors, store.repos);
    SectionPathsDisjoint(Teams, Repos, show, store.teams, store.repos);
    DisjointUnionSize(a, b);
    assert (a + b) * c == {};
    DisjointUnionSize(a + b, c);
    SeedKeys(show, store);
  }

  // ===========================================================================
  // The driver's ledger

  /** File one check's errors, then its warnings. */
  function FileFindings(files: Ledger, f: Findings): Ledger {
    InsertWarnings(InsertErrors(files, f.errors), f.warnings)
  }

  /** The ledger after the two structural checks: file names, then cross references. */
  function Structural(show: Display, store: Store, order: Order): Ledger {
    InsertErrors(InsertErrors(Seed(show, store), ValidateFileNames(show, store, order)),
                 ValidateCrossReferences(show, store, order))
  }

  /** The ledger once every check's findings are filed, in the driver's order. */
  function Aggregate(show: Display, store: Store, order: Order, done: seq<Completion>, slack: Findings): Ledger {
    FileFindings(FileFindings(Structural(show, store, order), ValidateGithubUsers(show, done)), slack)
  }

  /** Every error of the structural checks, in filing order. */
  function StructuralErrors(show: Display, store: Store, order: Order): seq<ValidationError> {
    ValidateFileNames(show, store, order) + ValidateCrossReferences(show, store, order)
  }

  /** Every error of every check, in filing order. */
  function AllErrors(show: Display, store: Store, order: Order, done: seq<Completion>, slack: Findings): seq<ValidationError> {
    StructuralErrors(show, store, order) + ValidateGithubUsers(show, done).errors + slack.errors
  }

  /** Every warning of every check, in filing order. */
  function AllWarnings(show: Display, done: seq<Completion>, slack: Findings): seq<ValidationWarning> {
    ValidateGithubUsers(show, done).warnings + slack.warnings
  }

  /** Filing one check's findings appends to each file the ones that name it. */
  lemma FileFindingsContents(files: Ledger, f: Findings, path: string)
    ensures Entry(FileFindings(files, f), path).errors == Entry(files, path).errors + Filter(f.errors, ErrorFor(path))
    ensures Entry(FileFindings(files, f), path).warnings == Entry(files, path).warnings + Filter(f.warnings, WarningFor(path))
  {
    InsertErrorsContents(files, f.errors, path);
    InsertWarningsContents(InsertErrors(files, f.errors), f.warnings, path);
  }

  /** Filing one check's findings adds exactly its numbers of errors and warnings to the totals. */
  lemma FileFindingsTotals(files: Ledger, f: Findings)
    ensures SumMap(FileFindings(files, f), ErrorCount) == SumMap(files, ErrorCount) + |f.errors|
    ensures SumMap(FileFindings(files, f), WarningCount) == SumMap(files, WarningCount) + |f.warnings|
  {
    InsertErrorsTotals(files, f.errors);
    InsertWarningsTotals(InsertErrors(files, f.errors), f.warnings);
  }

  /** After filing one check's findings the ledger is error-free iff it was and the check found no error. */
  lemma FileFindingsValidity(files: Ledger, f: Findings)
    ensures ErrorFree(FileFindings(files, f)) <==> ErrorFree(files) && f.errors == []
  {
    InsertErrorsValidity(files, f.errors);
    InsertWarningsValidity(InsertErrors(files, f.errors), f.warnings);
  }

  /** Filing one check's findings adds an entry for each file they name. */
  lemma FileFindingsKeys(files: Ledger, f: Findings)
    ensures FileFindings(files, f).Keys == files.Keys + ErrorFiles(f.errors) + WarningFiles(f.warnings)
  {
    InsertErrorsKeys(files, f.errors);
    InsertWarningsKeys(InsertErrors(files, f.errors), f.warnings);
  }

  /** After the structural checks each file holds the structural errors that name it, and no warning. */
  lemma StructuralContents(show: Display, store: Store, order: Order, path: string)
    ensures Entry(Structural(show, store, order), path).errors
      == Filter(StructuralErrors(show, store, order), ErrorFor(path))
    ensures Entry(Structural(show, store, order), path).warnings == []
  {
    var f0 := Seed(show, store);
    assert Entry(f0, path) == NoMessages;
    FiledErrorsTwice(f0, ValidateFileNames(show, store, order), ValidateCrossReferences(show, store, order), path);
  }

  /** Filing two streams of errors on an empty entry leaves it their errors that name it. */
  lemma FiledErrorsTwice(f0: Ledger, vf: seq<ValidationError>, vc: seq<ValidationError>, path: string)
    requires Entry(f0, path) == NoMessages
    ensures Entry(InsertErrors(InsertErrors(f0, vf), vc), path).errors == Filter(vf + vc, ErrorFor(path))
    ensures Entry(InsertErrors(InsertErrors(f0, vf), vc), path).warnings == []
  {
    InsertErrorsContents(f0, vf, path);
    InsertErrorsContents(InsertErrors(f0, vf), vc, path);
    FilterAppend(vf, vc, ErrorFor(path));
  }

  /** File-name errors are filed under loaded records' paths. */
  lemma FileNamesFiles(show: Display, store: Store, order: Order)
    requires Iterates(order, store)
    ensures ErrorFiles(ValidateFileNames(show, store, order)) <= SeedPaths(show, store)
  {
    FileNamesFlagged(show, store, order);
  }

  /** Cross-reference errors are filed under loaded teams' paths. */
  lemma CrossReferencesFiles(show: Display, store: Store, order: Order)
    requires Iterates(order, store)
    ensures ErrorFiles(ValidateCrossReferences(show, store, order)) <= SeedPaths(show, store)
  {
    CrossReferencesFlagged(show, store, order);
  }

  /** The structural checks only file errors under loaded records' paths. */
  lemma StructuralKeys(show: Display, store: Store, order: Order)
    requires Iterates(order, store)
    ensures Structural(show, store, order).Keys == SeedPaths(show, store)
  {
    var vf, vc := ValidateFileNames(show, store, order), ValidateCrossReferences(show, store, order);
    var f0 := Seed(show, store);
    SeedKeys(show, store);
    InsertErrorsKeys(f0, vf);
    InsertErrorsKeys(InsertErrors(f0, vf), vc);
    FileNamesFiles(show, store, order);
    CrossReferencesFiles(show, store, order);
  }

  /** The structural checks add their numbers of errors to the totals. */
  lemma StructuralTotals(show: Display, store: Store, order: Order)
    ensures SumMap(Structural(show, store, order), ErrorCount) == |StructuralErrors(show, store, order)|
    ensures SumMap(Structural(show, store, order), WarningCount) == 0
  {
    var vf, vc := ValidateFileNames(show, store, order), ValidateCrossReferences(show, store, order);
    var f0 := Seed(show, store);
    InsertErrorsTotals(f0, vf);
    InsertErrorsTotals(InsertErrors(f0, vf), vc);
  }

  /** After the structural checks the ledger is error-free iff every name matches and every reference resolves. */
  lemma StructuralValidity(show: Display, store: Store, order: Order)
    requires Iterates(order, store)
    ensures ErrorFree(Structural(show, store, order)) <==> AllNamesMatch(store) && AllReferencesResolve(store)
  {
    ErrorsTwiceValidity(Seed(show, store), ValidateFileNames(show, store, order), ValidateCrossReferences(show, store, order));
    FileNamesEmpty(show, store, order);
    CrossReferencesEmpty(show, store, order);
  }

  /** Filing two streams of errors on an error-free ledger keeps it so iff both are empty. */
  lemma ErrorsTwiceValidity(f0: Ledger, vf: seq<ValidationError>, vc: seq<ValidationError>)
    requires ErrorFree(f0)
    ensures ErrorFree(InsertErrors(InsertErrors(f0, vf), vc)) <==> vf == [] && vc == []
  {
    InsertErrorsValidity(f0, vf);
    InsertErrorsValidity(InsertErrors(f0, vf), vc);
  }

  /**
    Filing two checks' findings on a ledger whose entry for `path` holds the
    errors of `base` naming it, and no warning.
   */
  lemma FiledTwiceContents(s: Ledger, base: seq<ValidationError>, g: Findings, h: Findings, path: string)
    requires Entry(s, path).errors == Filter(base, ErrorFor(path)) && Entry(s, path).warnings == []
    ensures Entry(FileFindings(FileFindings(s, g), h), path).errors
      == Filter(base + g.errors + h.errors, ErrorFor(path))
    ensures Entry(FileFindings(FileFindings(s, g), h), path).warnings
      == Filter(g.warnings + h.warnings, WarningFor(path))
  {
    FileFindingsContents(s, g, path);
    FileFindingsContents(FileFindings(s, g), h, path);
    FilterAppend(base + g.errors, h.errors, ErrorFor(path));
    FilterAppend(base, g.errors, ErrorFor(path));
    FilterAppend(g.warnings, h.warnings, WarningFor(path));
  }

  /** Each file holds exactly the findings that name it, in the order they were produced. */
  lemma AggregateContents(show: Display, store: Store, order: Order, done: seq<Completion>, slack: Findings, path: string)
    ensures Entry(Aggregate(show, store, order, done, slack), path).errors
      == Filter(AllErrors(show, store, order, done, slack), ErrorFor(path))
    ensures Entry(Aggregate(show, store, order, done, slack), path).warnings
      == Filter(AllWarnings(show, done, slack), WarningFor(path))
  {
    StructuralContents(show, store, order, path);
    FiledTwiceContents(Structural(show, store, order), StructuralErrors(show, store, order),
                       ValidateGithubUsers(show, done), slack, path);
  }

  /** The totals over the ledger are the numbers of findings produced. */
  lemma AggregateTotals(show: Display, store: Store, order: Order, done: seq<Completion>, slack: Findings)
    ensures SumMap(Aggregate(show, store, order, done, slack), ErrorCount) == |AllErrors(show, store, order, done, slack)|
    ensures SumMap(Aggregate(show, store, order, done, slack), WarningCount) == |AllWarnings(show, done, slack)|
  {
    var github := ValidateGithubUsers(show, done);
    var s := Structural(show, store, order);
    StructuralTotals(show, store, order);
    FileFindingsTotals(s, github);
    FileFindingsTotals(FileFindings(s, github), slack);
  }

  /**
    The ledger has no error iff every file name matches, every reference resolves,
    no GitHub lookup came back 404 and the Slack check reported no error;
    warnings, whatever they are, play no part.
   */
  lemma AggregateValid(show: Display, store: Store, order: Order, done: seq<Completion>, slack: Findings)
    requires Iterates(order, store)
    ensures ErrorFree(Aggregate(show, store, order, done, slack)) <==>
      && AllNamesMatch(store)
      && AllReferencesResolve(store)
      && (forall c | c in done :: !IsAbsent(c))
      && slack.errors == []
  {
    var github := ValidateGithubUsers(show, done);
    var s := Structural(show, store, order);
    StructuralValidity(show, store, order);
    FileFindingsValidity(s, github);
    FileFindingsValidity(FileFindings(s, github), slack);
    GithubErrorsEmpty(show, done);
  }

  /** Filing two checks' findings, the first naming only files already present. */
  lemma FiledTwiceKeys(s: Ledger, g: Findings, h: Findings)
    requires ErrorFiles(g.errors) <= s.Keys && WarningFiles(g.warnings) <= s.Keys
    ensures FileFindings(FileFindings(s, g), h).Keys == s.Keys + ErrorFiles(h.errors) + WarningFiles(h.warnings)
  {
    FileFindingsKeys(s, g);
    FileFindingsKeys(FileFindings(s, g), h);
  }

  /**
    Every file of the ledger is a loaded record's file or one the Slack check
    named: the other checks only file findings under records' paths.
   */
  lemma AggregateKeys(show: Display, store: Store, order: Order, done: seq<Completion>, slack: Findings)
    requires Iterates(order, store) && CompletesAll(done, store.contributors)
    ensures Aggregate(show, store, order, done, slack).Keys
      == SeedPaths(show, store) + ErrorFiles(slack.errors) + WarningFiles(slack.warnings)
  {
    var github := ValidateGithubUsers(show, done);
    var s := Structural(show, store, order);
    StructuralKeys(show, store, order);
    GithubFindingsBound(show, done, store.contributors);
    assert ErrorFiles(github.errors) <= s.Keys;
    assert WarningFiles(github.warnings) <= s.Keys;
    FiledTwiceKeys(s, github, slack);
  }

  /**
    Neither the iteration order of the record maps nor the completion order of
    the GitHub lookups changes which findings a file holds, only their order.
   */
  lemma AggregateOrderFree(show: Display, store: Store, o1: Order, o2: Order,
                           d1: seq<Completion>, d2: seq<Completion>, slack: Findings, path: string)
    requires Iterates(o1, store) && Iterates(o2, store) && multiset(d1) == multiset(d2)
    ensures multiset(Entry(Aggregate(show, store, o1, d1, slack), path).errors)
         == multiset(Entry(Aggregate(show, store, o2, d2, slack), path).errors)
    ensures multiset(Entry(Aggregate(show, store, o1, d1, slack), path).warnings)
         == multiset(Entry(Aggregate(show, store, o2, d2, slack), path).warnings)
  {
    AggregateContents(show, store, o1, d1, slack, path);
    AggregateContents(show, store, o2, d2, slack, path);
    FileNamesOrderFree(show, store, o1, o2);
    CrossReferencesOrderFree(show, store, o1, o2);
    GithubCompletionOrderFree(show, d1, d2);
    FilterPermutation(AllErrors(show, store, o1, d1, slack), AllErrors(show, store, o2, d2, slack), ErrorFor(path));
    FilterPermutation(AllWarnings(show, d1, slack), AllWarnings(show, d2, slack), WarningFor(path));
  }

  // ===========================================================================
  // Statistics and outcome

  /** Files of the ledger that hold at least one error. */
  ghost function InvalidFiles(files: Ledger): set<string> {
    set p | p in files && files[p].errors != []
  }

  /** Files among `ps` that hold at least one error. */
  ghost function InvalidAmong(ps: seq<string>, files: Ledger): set<string> {
    set p | p in ps && p in files && files[p].errors != []
  }

  lemma InvalidAmongSnoc(ps: seq<string>, p: string, files: Ledger)
    requires p !in ps
    ensures p !in InvalidAmong(ps, files)
    ensures InvalidAmong(ps + [p], files)
      == InvalidAmong(ps, files) + (if p in files && files[p].errors != [] then {p} else {})
  {
  }

  /** The `i`-th key of an enumeration does not occur before position `i`. */
  lemma EnumerationFresh(ks: seq<string>, i: nat)
    requires Distinct(ks) && i < |ks|
    ensures ks[i] !in ks[..i]
  {
    forall j | 0 <= j < i
      ensures ks[..i][j] != ks[i]
    {
      assert ks[..i][j] == ks[j];
    }
  }

  /** What one more entry of the walk adds to each fold. */
  lemma TallyStep(files: Ledger, ks: seq<string>, i: nat)
    requires Enumerates(ks, files) && i < |ks|
    ensures ks[i] in files
    ensures SumValues(ks[..i + 1], files, ErrorCount) == SumValues(ks[..i], files, ErrorCount) + |files[ks[i]].errors|
    ensures SumValues(ks[..i + 1], files, WarningCount) == SumValues(ks[..i], files, WarningCount) + |files[ks[i]].warnings|
    ensures |InvalidAmong(ks[..i + 1], files)| == |InvalidAmong(ks[..i], files)| + (if files[ks[i]].errors == [] then 0 else 1)
  {
    var p := ks[i];
    assert ks[..i + 1] == ks[..i] + [p];
    SumValuesSnoc(ks[..i], p, files, ErrorCount);
    SumValuesSnoc(ks[..i], p, files, WarningCount);
    EnumerationFresh(ks, i);
    InvalidAmongSnoc(ks[..i], p, files);
  }

  /**
    The three folds over the ledger's values, walked in the iteration order
    `ks`: the error and warning totals, and the numbers of files without and
    with errors.
   */
  method Tally(files: Ledger, ks: seq<string>) returns (totalErrors: nat, totalWarnings: nat, valid: nat, invalid: nat)
    requires Enumerates(ks, files)
    ensures totalErrors == SumMap(files, ErrorCount)
    ensures totalWarnings == SumMap(files, WarningCount)
    ensures invalid == |InvalidFiles(files)|
    ensures valid + invalid == |files|
  {
    totalErrors, totalWarnings, valid, invalid := 0, 0, 0, 0;
    var i := 0;
    while i < |ks|
      invariant 0 <= i <= |ks|
      invariant totalErrors == SumValues(ks[..i], files, ErrorCount)
      invariant totalWarnings == SumValues(ks[..i], files, WarningCount)
      invariant invalid == |InvalidAmong(ks[..i], files)|
      invariant valid + invalid == i
    {
      var p := ks[i];
      TallyStep(files, ks, i);
      totalErrors := totalErrors + |files[p].errors|;
      totalWarnings := totalWarnings + |files[p].warnings|;
      if files[p].errors == [] {
        valid := valid + 1;
      } else {
        invalid := invalid + 1;
      }
      i := i + 1;
    }
    assert ks[..i] == ks;
    SumValuesEnumeration(ks, files, ErrorCount);
    SumValuesEnumeration(ks, files, WarningCount);
    EnumerationSize(ks, files);
    assert InvalidAmong(ks, files) == InvalidFiles(files);
  }

  /** A ledger is error-free iff no file is invalid iff it holds no error at all. */
  lemma ErrorFreeMeasures(files: Ledger)
    ensures ErrorFree(files) <==> InvalidFiles(files) == {}
    ensures ErrorFree(files) <==> SumMap(files, ErrorCount) == 0
  {
    SumMapZero(files, ErrorCount);
    if !ErrorFree(files) {
      var p :| p in files && files[p].errors != [];
      assert p in InvalidFiles(files);
    }
  }

  /**
    The statistics and verdict of one ledger: totals are sums of per-file
    counts, a file is valid iff it holds no error, and the report is valid iff
    no file is invalid.
   */
  method BuildReport(store: Store, files: Ledger, ks: seq<string>) returns (report: ValidationReport)
    requires Enumerates(ks, files)
    ensures report.files == files
    ensures report.stats.contributorsCount == |store.contributors|
    ensures report.stats.teamsCount == |store.teams|
    ensures report.stats.reposCount == |store.repos|
    ensures report.stats.totalErrors == SumMap(files, ErrorCount)
    ensures report.stats.totalWarnings == SumMap(files, WarningCount)
    ensures report.stats.invalidFilesCount == |InvalidFiles(files)|
    ensures report.stats.validFilesCount + report.stats.invalidFilesCount == |files|
    ensures report.valid <==> ErrorFree(files)
    ensures report.valid <==> report.stats.totalErrors == 0
  {
    var totalErrors, totalWarnings, valid, invalid := Tally(files, ks);
    ErrorFreeMeasures(files);
    var stats := ValidationStatistics(
      |store.contributors|, |store.teams|, |store.repos|, valid, invalid, totalErrors, totalWarnings);
    report := ValidationReport(invalid == 0, stats, files);
  }

  /** What the run ends with: success, or the failure message's two numbers. */
  datatype Outcome = Passed | Failed(totalErrors: nat, invalidFiles: nat)

  /** The run fails with the report's error and invalid-file counts when the report is not valid, and passes otherwise. */
  function Conclude(report: ValidationReport): Outcome {
    if report.valid then Passed
    else Failed(report.stats.totalErrors, report.stats.invalidFilesCount)
  }

  /**
    A report built from a ledger fails exactly when it is not valid, and then
    with nonzero counts of errors and of invalid files.
   */
  lemma ConcludeMeasures(report: ValidationReport, files: Ledger)
    requires report.stats.invalidFilesCount == |InvalidFiles(files)|
    requires report.valid <==> ErrorFree(files)
    requires report.valid <==> report.stats.totalErrors == 0
    ensures report.valid <==> Conclude(report) == Passed
    ensures Conclude(report).Failed? ==> Conclude(report).totalErrors == report.stats.totalErrors > 0
    ensures Conclude(report).Failed? ==> Conclude(report).invalidFiles == report.stats.invalidFilesCount > 0
  {
    ErrorFreeMeasures(files);
  }

  /**
    One run of the validator: file every finding, summarise the ledger and
    decide.  The run passes iff the data set has no integrity violation; when it
    fails, it reports the number of findings that were errors.
   */
  method Validate(show: Display, store: Store, order: Order, done: seq<Completion>, slack: Findings, ks: seq<string>)
    returns (report: ValidationReport, outcome: Outcome)
    requires Iterates(order, store)
    requires Enumerates(ks, Aggregate(show, store, order, done, slack))
    ensures report.files == Aggregate(show, store, order, done, slack)
    ensures outcome == Passed <==>
      && AllNamesMatch(store)
      && AllReferencesResolve(store)
      && (forall c | c in done :: !IsAbsent(c))
      && slack.errors == []
    ensures report.valid <==> outcome == Passed
    ensures report.stats.contributorsCount == |store.contributors|
    ensures report.stats.teamsCount == |store.teams|
    ensures report.stats.reposCount == |store.repos|
    ensures report.stats.totalErrors == |AllErrors(show, store, order, done, slack)|
    ensures report.stats.totalWarnings == |AllWarnings(show, done, slack)|
    ensures report.stats.invalidFilesCount == |InvalidFiles(report.files)|
    ensures report.stats.validFilesCount + report.stats.invalidFilesCount == |report.files|
    ensures outcome.Failed? ==> outcome.totalErrors == report.stats.totalErrors > 0
    ensures outcome.Failed? ==> outcome.invalidFiles == report.stats.invalidFilesCount > 0
  {
    var files := Aggregate(show, store, order, done, slack);
    AggregateTotals(show, store, order, done, slack);
    AggregateValid(show, store, order, done, slack);
    report := BuildReport(store, files, ks);
    outcome := Conclude(report);
    ConcludeMeasures(report, files);
  }
}
