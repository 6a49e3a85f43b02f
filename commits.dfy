/** Harvesting one person's git commits from many repositories, removing
    the duplicates that several clones or references produce, and ordering
    the rest by commit time (my/coding/commits.py). */
module Commits {
  import opened Streams
  import opened Text
  import opened Paths
  import Sorting

  // ---------------------------------------------------------------------
  // Authorship test

  datatype Actor = Actor(name: string, email: string)

  /** The configured identity: `config.emails` and `config.names`. */
  datatype Identity = Identity(emails: set<string>, names: set<string>)

  /** `_things`: every configured email and name. */
  function Things(id: Identity): set<string>
  {
    id.emails + id.names
  }

  /** The text `by_me` searches for partial matches: `f"{email} {name}"`. */
  function AuthorLine(a: Actor): string
  {
    a.email + " " + a.name
  }

  /** `by_me`: `Ok(true)` when the commit is the configured person's,
      `Ok(false)` when it is not, and the RuntimeError it raises when a
      configured email or name occurs in the author only as a substring. */
  function ByMe(a: Actor, id: Identity): (r: Result<bool>)
    ensures a.email in id.emails ==> r == Ok(true)
    ensures a.email !in id.emails && a.name in id.names ==> r == Ok(true)
    ensures r.Err? ==> r.error.kind == RuntimeError
    ensures r.Err? <==> a.email !in id.emails && a.name !in id.names
                        && exists t :: t in Things(id) && Contains(AuthorLine(a), t)
    ensures r == Ok(false) <==> a.email !in id.emails && a.name !in id.names
                                && forall t :: t in Things(id) ==> !Contains(AuthorLine(a), t)
  {
    if a.email in id.emails then Ok(true)
    else if a.name in id.names then Ok(true)
    else if exists t :: t in Things(id) && Contains(AuthorLine(a), t) then
      Err(Error(RuntimeError, "WARNING!!!"))
    else Ok(false)
  }

  /** An ambiguous author is one where a configured string occurs at some
      position of `"<email> <name>"` without matching either field exactly. */
  lemma ByMeAmbiguousWitness(a: Actor, id: Identity)
    ensures ByMe(a, id).Err? <==>
              a.email !in id.emails && a.name !in id.names
              && exists t, i :: t in Things(id) && OccursAt(AuthorLine(a), t, i)
  {
    forall t | t in Things(id) {
      ContainsIff(AuthorLine(a), t);
    }
  }

  /** Growing the configuration never turns "mine" into anything else, and
      never turns "ambiguous" into "not mine". */
  lemma ByMeMonotone(a: Actor, id: Identity, wider: Identity)
    requires id.emails <= wider.emails && id.names <= wider.names
    ensures ByMe(a, id) == Ok(true) ==> ByMe(a, wider) == Ok(true)
    ensures ByMe(a, id).Err? ==> ByMe(a, wider) != Ok(false)
  {
  }

  // ---------------------------------------------------------------------
  // Timestamps

  /** gitpython's own tzinfo object: its `_name` and its `_offset` in
      seconds east of UTC. */
  datatype GitTz = GitTz(name: string, offset: int)

  /** A datetime as gitpython returns it: wall-clock seconds in its zone. */
  datatype GitTime = GitTime(wall: int, tz: GitTz)

  /** An aware datetime whose tzinfo is a `datetime.timezone` with a fixed
      offset (seconds east of UTC). */
  datatype DateTime = DateTime(wall: int, offset: int)

  /** The instant (seconds since the epoch, UTC) a git datetime denotes. */
  function GitInstant(t: GitTime): int
  {
    t.wall - t.tz.offset
  }

  /** The instant an aware datetime denotes; aware datetimes compare by it. */
  function Instant(d: DateTime): int
  {
    d.wall - d.offset
  }

  /** `datetime.timezone(offset)` accepts offsets strictly inside one day. */
  const DaySeconds := 86400

  /** What `timezone` says about an offset out of range. */
  const OffsetRangeMessage :=
    "offset must be a timedelta strictly between -timedelta(hours=24) and timedelta(hours=24)."

  /** `str()` of the OSError `os.listdir` raises for a missing directory. */
  const NoSuchFile := "No such file or directory"

  /** `fix_datetime`: replaces git's tzinfo by a `timezone` with the same
      offset.  It asserts that git's zone is a fixed one, and `timezone`
      raises ValueError for an offset of a day or more. */
  function FixDatetime(t: GitTime): (r: Result<DateTime>)
    ensures r.Ok? <==> t.tz.name == "fixed" && -DaySeconds < t.tz.offset < DaySeconds
    ensures r.Ok? ==> r.value.offset == t.tz.offset && Instant(r.value) == GitInstant(t)
    ensures t.tz.name != "fixed" ==> r.Err? && r.error.kind == AssertionError
    ensures t.tz.name == "fixed" && r.Err? ==> r.error.kind == ValueError
  {
    if t.tz.name != "fixed" then Err(Error(AssertionError, ""))
    else if !(-DaySeconds < t.tz.offset < DaySeconds) then
      Err(Error(ValueError, OffsetRangeMessage))
    else Ok(DateTime(t.wall, t.tz.offset))
  }

  // ---------------------------------------------------------------------
  // Records

  /** A git reference; `ref.path` is what the history walk is given. */
  datatype Ref = Ref(path: string)

  /** One commit of a history walk, as gitpython presents it. */
  datatype RawCommit = RawCommit(hexsha: string, author: Actor, committed: GitTime,
                                 authored: GitTime, message: string)

  /** The `Commit` record the pipeline yields. */
  datatype Commit = Commit(commitedDt: DateTime, authoredDt: DateTime, message: string,
                           repo: string, sha: string, ref: Option<Ref>)
  {
    /** The `dt` property: the commit time. */
    function Dt(): DateTime { commitedDt }
  }

  /** The sort key of `get_all_commits`: the instant of `dt`. */
  function CommitTime(c: Commit): int
  {
    Instant(c.Dt())
  }

  /** The record a commit becomes, written out field by field. */
  function RecordOf(c: RawCommit, repoName: string, ref: Option<Ref>): Commit
  {
    Commit(DateTime(c.committed.wall, c.committed.tz.offset),
           DateTime(c.authored.wall, c.authored.tz.offset),
           Strip(c.message), repoName, c.hexsha, ref)
  }

  predicate Mine(c: RawCommit, id: Identity)
  {
    ByMe(c.author, id) == Ok(true)
  }

  /** The loop body of `iter_commits` for one commit: `Ok(None)` when it is
      skipped, `Ok(Some(record))` when it is yielded, `Err` when `by_me` or
      `fix_datetime` raises. */
  function Harvest(c: RawCommit, repoName: string, ref: Option<Ref>, id: Identity): Result<Option<Commit>>
  {
    match ByMe(c.author, id)
    case Err(e) => Err(e)
    case Ok(mine) =>
      if !mine then Ok(None)
      else match FixDatetime(c.committed)
        case Err(e) => Err(e)
        case Ok(committed) =>
          match FixDatetime(c.authored)
          case Err(e) => Err(e)
          case Ok(authored) => Ok(Some(Commit(committed, authored, Strip(c.message), repoName, c.hexsha, ref)))
  }

  /** A yielded record is exactly `RecordOf` the commit, and commits are
      yielded exactly when they are mine and both their times convert. */
  lemma HarvestYields(c: RawCommit, repoName: string, ref: Option<Ref>, id: Identity)
    ensures Harvest(c, repoName, ref, id).Ok? && Harvest(c, repoName, ref, id).value.Some?
            <==> Mine(c, id) && FixDatetime(c.committed).Ok? && FixDatetime(c.authored).Ok?
    ensures Harvest(c, repoName, ref, id) == Ok(None) <==> ByMe(c.author, id) == Ok(false)
    ensures Harvest(c, repoName, ref, id).Ok? && Harvest(c, repoName, ref, id).value.Some?
            ==> Harvest(c, repoName, ref, id).value.value == RecordOf(c, repoName, ref)
  {
  }

  // ---------------------------------------------------------------------
  // Per-repository and per-reference extraction

  /** The loop of `iter_commits` over the commits of a walk. */
  function HarvestAll(cs: seq<RawCommit>, repoName: string, ref: Option<Ref>, id: Identity): Run<Commit>
  {
    if cs == [] then Done([])
    else match Harvest(cs[0], repoName, ref, id)
      case Err(e) => Raise(e)
      case Ok(None) => HarvestAll(cs[1..], repoName, ref, id)
      case Ok(Some(x)) => Cons(x, HarvestAll(cs[1..], repoName, ref, id))
  }

  /** `iter_commits(repo, ref)` given the walk gitpython performs for it
      (the commits it produces, then the exception that ended it, if any). */
  function IterCommitsSpec(repo: Path, ref: Option<Ref>, walk: Run<RawCommit>, id: Identity): Run<Commit>
  {
    Then(HarvestAll(walk.items, Name(repo), ref, id), Run([], walk.failure))
  }

  /** One step of the loop of `iter_commits`. */
  lemma HarvestAllStep(cs: seq<RawCommit>, repoName: string, ref: Option<Ref>, id: Identity)
    requires cs != []
    ensures Harvest(cs[0], repoName, ref, id).Err? ==>
              HarvestAll(cs, repoName, ref, id) == Raise(Harvest(cs[0], repoName, ref, id).error)
    ensures Harvest(cs[0], repoName, ref, id) == Ok(None) ==>
              HarvestAll(cs, repoName, ref, id) == HarvestAll(cs[1..], repoName, ref, id)
    ensures Harvest(cs[0], repoName, ref, id).Ok? && Harvest(cs[0], repoName, ref, id).value.Some? ==>
              HarvestAll(cs, repoName, ref, id)
              == Cons(Harvest(cs[0], repoName, ref, id).value.value, HarvestAll(cs[1..], repoName, ref, id))
  {
  }

  /** The loop invariant of `iter_commits` carried over one commit. */
  lemma HarvestLoopStep(cs: seq<RawCommit>, i: int, out: seq<Commit>, repoName: string, ref: Option<Ref>, id: Identity)
    requires 0 <= i < |cs|
    requires HarvestAll(cs, repoName, ref, id) == Prepend(out, HarvestAll(cs[i..], repoName, ref, id))
    ensures Harvest(cs[i], repoName, ref, id).Err? ==>
              HarvestAll(cs, repoName, ref, id) == Run(out, Some(Harvest(cs[i], repoName, ref, id).error))
    ensures Harvest(cs[i], repoName, ref, id) == Ok(None) ==>
              HarvestAll(cs, repoName, ref, id) == Prepend(out, HarvestAll(cs[i + 1..], repoName, ref, id))
    ensures Harvest(cs[i], repoName, ref, id).Ok? && Harvest(cs[i], repoName, ref, id).value.Some? ==>
              HarvestAll(cs, repoName, ref, id)
              == Prepend(out + [Harvest(cs[i], repoName, ref, id).value.value], HarvestAll(cs[i + 1..], repoName, ref, id))
  {
    var rest := cs[i..];
    assert rest[0] == cs[i];
    assert rest[1..] == cs[i + 1..];
    HarvestAllStep(rest, repoName, ref, id);
    var h := Harvest(cs[i], repoName, ref, id);
    if h.Ok? && h.value.Some? {
      AppendAssoc(out, [h.value.value], HarvestAll(cs[i + 1..], repoName, ref, id).items);
    }
  }

  method IterCommits(repo: Path, ref: Option<Ref>, walk: Run<RawCommit>, id: Identity)
    returns (r: Run<Commit>)
    ensures r == IterCommitsSpec(repo, ref, walk, id)
  {
    var name := Name(repo);
    var cs := walk.items;
    var out: seq<Commit> := [];
    var i := 0;
    while i < |cs|
      invariant 0 <= i <= |cs|
      invariant HarvestAll(cs, name, ref, id) == Prepend(out, HarvestAll(cs[i..], name, ref, id))
    {
      HarvestLoopStep(cs, i, out, name, ref, id);
      var h := Harvest(cs[i], name, ref, id);
      if h.Err? {
        return Run(out, Some(h.error));
      }
      if h.value.Some? {
        out := out + [h.value.value];
      }
      i := i + 1;
    }
    assert cs[i..] == [];
    return Run(out, walk.failure);
  }

  /** Commits of `cs` that are mine, as records: what a walk yields when
      nothing raises. */
  function MineRecords(cs: seq<RawCommit>, repoName: string, ref: Option<Ref>, id: Identity): seq<Commit>
  {
    if cs == [] then []
    else (if Mine(cs[0], id) then [RecordOf(cs[0], repoName, ref)] else [])
         + MineRecords(cs[1..], repoName, ref, id)
  }

  /** The position of the first commit whose processing raises, or `|cs|`. */
  function FirstRaising(cs: seq<RawCommit>, repoName: string, ref: Option<Ref>, id: Identity): (k: nat)
    ensures k <= |cs|
    ensures k < |cs| ==> Harvest(cs[k], repoName, ref, id).Err?
  {
    if cs == [] then 0
    else if Harvest(cs[0], repoName, ref, id).Err? then 0
    else 1 + FirstRaising(cs[1..], repoName, ref, id)
  }

  /** `iter_commits` yields, in walk order, the record of every commit that
      is mine among those before the first commit whose processing raises,
      and then raises that commit's exception, if there is one. */
  lemma {:induction false} HarvestAllCharacterised(cs: seq<RawCommit>, repoName: string, ref: Option<Ref>, id: Identity)
    ensures var k := FirstRaising(cs, repoName, ref, id);
            HarvestAll(cs, repoName, ref, id)
            == Run(MineRecords(cs[..k], repoName, ref, id),
                   if k < |cs| then Some(Harvest(cs[k], repoName, ref, id).error) else None)
  {
    var k := FirstRaising(cs, repoName, ref, id);
    if cs != [] {
      HarvestAllStep(cs, repoName, ref, id);
      HarvestYields(cs[0], repoName, ref, id);
      if Harvest(cs[0], repoName, ref, id).Err? {
        assert k == 0;
      } else {
        var k' := FirstRaising(cs[1..], repoName, ref, id);
        assert k == k' + 1;
        HarvestAllCharacterised(cs[1..], repoName, ref, id);
        assert cs[..k][1..] == cs[1..][..k'];
        assert cs[..k][0] == cs[0];
        assert MineRecords(cs[..k], repoName, ref, id)
               == (if Mine(cs[0], id) then [RecordOf(cs[0], repoName, ref)] else [])
                  + MineRecords(cs[1..][..k'], repoName, ref, id);
        if k < |cs| {
          assert cs[k] == cs[1..][k'];
        }
      }
    }
  }

  /** Every record in `MineRecords` carries the repository name and the
      reference it was produced for, and comes from a commit that is mine. */
  lemma {:induction false} MineRecordsFields(cs: seq<RawCommit>, repoName: string, ref: Option<Ref>, id: Identity)
    ensures forall x :: x in MineRecords(cs, repoName, ref, id) ==>
              x.repo == repoName && x.ref == ref
              && exists c :: c in cs && Mine(c, id) && x == RecordOf(c, repoName, ref)
  {
    if cs != [] {
      MineRecordsFields(cs[1..], repoName, ref, id);
    }
  }

  /** Every record `iter_commits` yields belongs to a commit that is mine and
      carries the repository's last path component, the stripped message,
      the commit's sha and the reference it was given. */
  lemma IterCommitsRecords(repo: Path, ref: Option<Ref>, walk: Run<RawCommit>, id: Identity)
    ensures forall x :: x in IterCommitsSpec(repo, ref, walk, id).items ==>
              x.repo == Name(repo) && x.ref == ref
              && exists c :: c in walk.items && Mine(c, id) && x.sha == c.hexsha && x.message == Strip(c.message)
  {
    var cs := walk.items;
    var k := FirstRaising(cs, Name(repo), ref, id);
    HarvestAllCharacterised(cs, Name(repo), ref, id);
    MineRecordsFields(cs[..k], Name(repo), ref, id);
    forall x | x in IterCommitsSpec(repo, ref, walk, id).items
      ensures exists c :: c in cs && Mine(c, id) && x.sha == c.hexsha && x.message == Strip(c.message)
    {
      var c :| c in cs[..k] && Mine(c, id) && x == RecordOf(c, Name(repo), ref);
      assert c in cs;
    }
  }

  /** The git library as the pipeline uses it: the references of the
      repository at a path, and the history walk for a path and an optional
      reference (`None` walks HEAD).  A repository that cannot be opened
      shows up as a walk or a reference listing that fails. */
  datatype Git = Git(references: Path -> Result<seq<Ref>>,
                     walk: (Path, Option<Ref>) -> Run<RawCommit>,
                     isGitDir: Path -> bool)

  function RefsCommits(repo: Path, refs: seq<Ref>, git: Git, id: Identity): Run<Commit>
  {
    if refs == [] then Done([])
    else Then(IterCommitsSpec(repo, Some(refs[0]), git.walk(repo, Some(refs[0])), id),
              RefsCommits(repo, refs[1..], git, id))
  }

  /** `iter_all_ref_commits`: the concatenation of `iter_commits(repo, r)`
      over the repository's references, in reference order. */
  function IterAllRefCommitsSpec(repo: Path, git: Git, id: Identity): Run<Commit>
  {
    match git.references(repo)
    case Err(e) => Raise(e)
    case Ok(refs) => RefsCommits(repo, refs, git, id)
  }

  /** The loop invariant of `iter_all_ref_commits` carried over one
      reference. */
  lemma RefsLoopStep(repo: Path, rs: seq<Ref>, i: int, out: seq<Commit>, git: Git, id: Identity)
    requires 0 <= i < |rs|
    requires RefsCommits(repo, rs, git, id) == Prepend(out, RefsCommits(repo, rs[i..], git, id))
    ensures var part := IterCommitsSpec(repo, Some(rs[i]), git.walk(repo, Some(rs[i])), id);
            RefsCommits(repo, rs, git, id)
            == if part.failure.Some? then Run(out + part.items, part.failure)
               else Prepend(out + part.items, RefsCommits(repo, rs[i + 1..], git, id))
  {
    var rest := rs[i..];
    assert rest[0] == rs[i];
    assert rest[1..] == rs[i + 1..];
    var part := IterCommitsSpec(repo, Some(rs[i]), git.walk(repo, Some(rs[i])), id);
    PrependThen(out, part, RefsCommits(repo, rs[i + 1..], git, id));
  }

  method IterAllRefCommits(repo: Path, git: Git, id: Identity) returns (r: Run<Commit>)
    ensures r == IterAllRefCommitsSpec(repo, git, id)
  {
    var refs := git.references(repo);
    if refs.Err? {
      return Raise(refs.error);
    }
    var rs := refs.value;
    var out: seq<Commit> := [];
    var i := 0;
    while i < |rs|
      invariant 0 <= i <= |rs|
      invariant RefsCommits(repo, rs, git, id) == Prepend(out, RefsCommits(repo, rs[i..], git, id))
    {
      RefsLoopStep(repo, rs, i, out, git, id);
      var part := IterCommits(repo, Some(rs[i]), git.walk(repo, Some(rs[i])), id);
      if part.failure.Some? {
        return Run(out + part.items, part.failure);
      }
      out := out + part.items;
      i := i + 1;
    }
    assert rs[i..] == [];
    return Run(out, None);
  }

  /** Every record of `iter_all_ref_commits` is tagged with one of the
      repository's references and with the repository's name. */
  lemma {:induction false} RefsCommitsTagged(repo: Path, refs: seq<Ref>, git: Git, id: Identity)
    ensures forall x :: x in RefsCommits(repo, refs, git, id).items ==>
              x.repo == Name(repo) && x.ref.Some? && x.ref.value in refs
  {
    if refs != [] {
      RefsCommitsTagged(repo, refs[1..], git, id);
      IterCommitsRecords(repo, Some(refs[0]), git.walk(repo, Some(refs[0])), id);
    }
  }

  // ---------------------------------------------------------------------
  // Naming and discovery

  /** The GitHub backup layout test of `canonical_name`, written out
      component by component. */
  predicate GithubBackup(repo: Path)
  {
    |repo| >= 4 && repo[|repo| - 4] == "github" && repo[|repo| - 3] == "repositories"
    && repo[|repo| - 1] == "repository"
  }

  /** `match('github/repositories/' + '*' + '/repository')` is exactly the
      component-wise test. */
  lemma GithubPatternIff(repo: Path)
    ensures MatchesPattern(repo, ["github", "repositories", "*", "repository"]) <==> GithubBackup(repo)
  {
    MatchesFour(repo, "github", "repositories", "*", "repository");
    if |repo| >= 4 {
      GlobLiteral(repo[|repo| - 1], "repository");
      GlobLiteral(repo[|repo| - 4], "github");
      GlobLiteral(repo[|repo| - 3], "repositories");
      GlobStarSuffix(repo[|repo| - 2], "");
      assert "*" + "" == "*";
    }
  }

  /** `canonical_name`: the project name for a GitHub backup layout
      `.../github/repositories/<project>/repository`, otherwise the last
      path component. */
  function CanonicalName(repo: Path): (r: string)
    ensures GithubBackup(repo) ==> r == repo[|repo| - 2]
    ensures !GithubBackup(repo) ==> r == Name(repo)
  {
    GithubPatternIff(repo);
    if MatchesPattern(repo, ["github", "repositories", "*", "repository"]) then Name(Parent(repo))
    else Name(repo)
  }

  lemma CanonicalNameExamples()
    ensures CanonicalName(["home", "x", "code", "foo"]) == "foo"
    ensures CanonicalName(["backups", "github", "repositories", "myproj", "repository"]) == "myproj"
    ensures CanonicalName(["github", "repositories", "myproj", "repo"]) == "repo"
  {
  }

  /** `is_git_repo`: the directory has a `.git` subdirectory. */
  predicate IsGitRepo(d: Path, isDir: Path -> bool)
  {
    isDir(Join(d, ".git"))
  }

  /** The working-tree root a git directory stands for: a directory named
      `.git` stands for its parent, any other (bare) one for itself. */
  function RepoRoot(c: Path): Path
  {
    if Name(c) == ".git" then Parent(c) else c
  }

  /** The filesystem as the scanners see it.  `listdir` is `None` for a
      directory that cannot be listed (Python raises OSError there). */
  datatype FileSystem = FileSystem(pathExists: Path -> bool,
                                   headFiles: Path -> seq<Path>,
                                   listdir: Path -> Option<seq<string>>,
                                   isDir: Path -> bool)

  /** The repositories `iter_all_git_repos` yields for a sequence of `HEAD`
      files: the roots of their parent directories that are git directories. */
  function GitRepos(heads: seq<Path>, isGitDir: Path -> bool): seq<Path>
  {
    MapSeq(Filter(MapSeq(heads, Parent), isGitDir), RepoRoot)
  }

  lemma GitReposSnoc(heads: seq<Path>, h: Path, isGitDir: Path -> bool)
    ensures GitRepos(heads + [h], isGitDir)
         == GitRepos(heads, isGitDir) + (if isGitDir(Parent(h)) then [RepoRoot(Parent(h))] else [])
  {
    var c := Parent(h);
    MapSeqAppend(heads, [h], Parent);
    assert MapSeq([h], Parent) == [c];
    FilterAppend(MapSeq(heads, Parent), [c], isGitDir);
    assert Filter([c], isGitDir) == (if isGitDir(c) then [c] else []) + Filter([], isGitDir);
    MapSeqAppend(Filter(MapSeq(heads, Parent), isGitDir), Filter([c], isGitDir), RepoRoot);
  }

  /** `iter_all_git_repos(dd)`: for every `HEAD` file found under `dd`
      (`headFiles`, the results of a recursive glob for `HEAD`), the root of
      its parent directory when that directory is a git directory, in glob
      order.  A missing `dd` fails its assertion. */
  method IterAllGitRepos(dd: Path, fs: FileSystem, git: Git) returns (r: Result<seq<Path>>)
    ensures !fs.pathExists(dd) ==> r.Err? && r.error.kind == AssertionError
    ensures fs.pathExists(dd) ==> r == Ok(GitRepos(fs.headFiles(dd), git.isGitDir))
  {
    if !fs.pathExists(dd) {
      return Err(Error(AssertionError, ""));
    }
    var heads := fs.headFiles(dd);
    var out: seq<Path> := [];
    var i := 0;
    while i < |heads|
      invariant 0 <= i <= |heads|
      invariant out == GitRepos(heads[..i], git.isGitDir)
    {
      assert heads[..i + 1] == heads[..i] + [heads[i]];
      GitReposSnoc(heads[..i], heads[i], git.isGitDir);
      var c := Parent(heads[i]);
      if git.isGitDir(c) {
        if Name(c) == ".git" {
          c := Parent(c);
        }
        out := out + [c];
      }
      i := i + 1;
    }
    assert heads[..i] == heads;
    return Ok(out);
  }

  /** Every yielded root has a git directory: itself, or its `.git`. */
  lemma GitReposHaveGitDir(heads: seq<Path>, git: Git)
    ensures forall root :: root in GitRepos(heads, git.isGitDir) ==>
              exists c :: c in MapSeq(heads, Parent) && git.isGitDir(c) && root == RepoRoot(c)
  {
    var cs := Filter(MapSeq(heads, Parent), git.isGitDir);
    FilterSubset(MapSeq(heads, Parent), git.isGitDir);
    forall root | root in MapSeq(cs, RepoRoot)
      ensures exists c :: c in MapSeq(heads, Parent) && git.isGitDir(c) && root == RepoRoot(c)
    {
      var j :| 0 <= j < |cs| && MapSeq(cs, RepoRoot)[j] == root;
      assert cs[j] in cs;
    }
  }

  /** The text of the one ValueError `_iter_multi_commits` tolerates. */
  const MissingMaster := "Reference at 'refs/heads/master' does not exist"

  /** A repository whose walk raises this error is skipped. */
  predicate Skippable(e: Error)
  {
    e.kind == ValueError && Contains(e.text, MissingMaster)
  }

  /** What one directory entry contributes to `_iter_multi_commits`: nothing
      unless it is a git repository; otherwise the commits `iter_commits`
      yields, with the missing-master ValueError swallowed after them. */
  function RepoCommits(pr: Path, fs: FileSystem, git: Git, id: Identity): Run<Commit>
  {
    if !IsGitRepo(pr, fs.isDir) then Done([])
    else
      var run := IterCommitsSpec(pr, None, git.walk(pr, None), id);
      if run.failure.Some? && Skippable(run.failure.value) then Done(run.items) else run
  }

  function DirCommits(src: Path, names: seq<string>, fs: FileSystem, git: Git, id: Identity): Run<Commit>
  {
    if names == [] then Done([])
    else Then(RepoCommits(Join(src, names[0]), fs, git, id), DirCommits(src, names[1..], fs, git, id))
  }

  /** What one source directory contributes: the commits of its entries, or
      the OSError of `listdir`. */
  function SourceCommits(src: Path, fs: FileSystem, git: Git, id: Identity): Run<Commit>
  {
    match fs.listdir(src)
    case None => Raise(Error(OSError, NoSuchFile))
    case Some(names) => DirCommits(src, names, fs, git, id)
  }

  /** `_iter_multi_commits(sources)`: the commits of every git repository
      directly inside each source directory, in listing order. */
  function MultiCommitsSpec(sources: seq<Path>, fs: FileSystem, git: Git, id: Identity): Run<Commit>
  {
    if sources == [] then Done([])
    else Then(SourceCommits(sources[0], fs, git, id), MultiCommitsSpec(sources[1..], fs, git, id))
  }

  /** The inner loop of `_iter_multi_commits`, over the entries of one source. */
  method IterDirCommits(src: Path, names: seq<string>, fs: FileSystem, git: Git, id: Identity)
    returns (r: Run<Commit>)
    ensures r == DirCommits(src, names, fs, git, id)
  {
    var out: seq<Commit> := [];
    var d := 0;
    while d < |names|
      invariant 0 <= d <= |names|
      invariant DirCommits(src, names, fs, git, id) == Prepend(out, DirCommits(src, names[d..], fs, git, id))
    {
      assert names[d..][0] == names[d];
      assert names[d..][1..] == names[d + 1..];
      var pr := Join(src, names[d]);
      ghost var here := RepoCommits(pr, fs, git, id);
      PrependThen(out, here, DirCommits(src, names[d + 1..], fs, git, id));
      if IsGitRepo(pr, fs.isDir) {
        var part := IterCommits(pr, None, git.walk(pr, None), id);
        if part.failure.Some? && !Skippable(part.failure.value) {
          assert here == part;
          return Run(out + part.items, part.failure);
        }
        assert here == Done(part.items);
        out := out + part.items;
      } else {
        assert here == Done([]);
        assert out + [] == out;
      }
      d := d + 1;
    }
    return Run(out, None);
  }

  method IterMultiCommits(sources: seq<Path>, fs: FileSystem, git: Git, id: Identity) returns (r: Run<Commit>)
    ensures r == MultiCommitsSpec(sources, fs, git, id)
  {
    var out: seq<Commit> := [];
    var s := 0;
    while s < |sources|
      invariant 0 <= s <= |sources|
      invariant MultiCommitsSpec(sources, fs, git, id) == Prepend(out, MultiCommitsSpec(sources[s..], fs, git, id))
    {
      assert sources[s..][0] == sources[s];
      assert sources[s..][1..] == sources[s + 1..];
      ghost var here := SourceCommits(sources[s], fs, git, id);
      PrependThen(out, here, MultiCommitsSpec(sources[s + 1..], fs, git, id));
      var listing := fs.listdir(sources[s]);
      if listing.None? {
        assert here == Raise(Error(OSError, NoSuchFile));
        return Run(out, Some(Error(OSError, NoSuchFile)));
      }
      var part := IterDirCommits(sources[s], listing.value, fs, git, id);
      assert here == part;
      if part.failure.Some? {
        return Run(out + part.items, part.failure);
      }
      out := out + part.items;
      s := s + 1;
    }
    return Run(out, None);
  }

  /** The missing-master ValueError never escapes `_iter_multi_commits`:
      whatever it raises is some other exception. */
  lemma {:induction false} MultiCommitsNeverRaiseSkippable(sources: seq<Path>, fs: FileSystem, git: Git, id: Identity)
    ensures MultiCommitsSpec(sources, fs, git, id).failure.Some? ==>
              !Skippable(MultiCommitsSpec(sources, fs, git, id).failure.value)
  {
    if sources != [] {
      if fs.listdir(sources[0]).Some? {
        DirNeverRaisesSkippable(sources[0], fs.listdir(sources[0]).value, fs, git, id);
      }
      MultiCommitsNeverRaiseSkippable(sources[1..], fs, git, id);
    }
  }

  lemma {:induction false} DirNeverRaisesSkippable(src: Path, names: seq<string>, fs: FileSystem, git: Git, id: Identity)
    ensures DirCommits(src, names, fs, git, id).failure.Some? ==>
              !Skippable(DirCommits(src, names, fs, git, id).failure.value)
  {
    if names != [] {
      DirNeverRaisesSkippable(src, names[1..], fs, git, id);
    }
  }

  /** `d` is an entry of the listing of `s`. */
  predicate Listed(fs: FileSystem, s: Path, d: string)
  {
    fs.listdir(s).Some? && d in fs.listdir(s).value
  }

  /** Every record `_iter_multi_commits` yields is named after a directory
      entry of some source that passed `is_git_repo`. */
  lemma {:induction false} MultiCommitsFromGitRepos(sources: seq<Path>, fs: FileSystem, git: Git, id: Identity)
    ensures forall x :: x in MultiCommitsSpec(sources, fs, git, id).items ==>
              exists s, d :: s in sources && Listed(fs, s, d) && IsGitRepo(Join(s, d), fs.isDir) && x.repo == d
  {
    if sources != [] {
      MultiCommitsFromGitRepos(sources[1..], fs, git, id);
      if fs.listdir(sources[0]).Some? {
        DirCommitsFromGitRepos(sources[0], fs.listdir(sources[0]).value, fs, git, id);
      }
      forall x | x in MultiCommitsSpec(sources, fs, git, id).items
        ensures exists s, d :: s in sources && Listed(fs, s, d) && IsGitRepo(Join(s, d), fs.isDir) && x.repo == d
      {
        if x in SourceCommits(sources[0], fs, git, id).items {
          var d :| d in fs.listdir(sources[0]).value && IsGitRepo(Join(sources[0], d), fs.isDir) && x.repo == d;
          assert Listed(fs, sources[0], d);
          assert sources[0] in sources;
        } else {
          var s, d :| s in sources[1..] && Listed(fs, s, d) && IsGitRepo(Join(s, d), fs.isDir) && x.repo == d;
          assert s in sources;
        }
      }
    }
  }

  lemma {:induction false} DirCommitsFromGitRepos(src: Path, names: seq<string>, fs: FileSystem, git: Git, id: Identity)
    ensures forall x :: x in DirCommits(src, names, fs, git, id).items ==>
              exists d :: d in names && IsGitRepo(Join(src, d), fs.isDir) && x.repo == d
  {
    if names != [] {
      DirCommitsFromGitRepos(src, names[1..], fs, git, id);
      var pr := Join(src, names[0]);
      if IsGitRepo(pr, fs.isDir) {
        IterCommitsRecords(pr, None, git.walk(pr, None), id);
      }
      forall x | x in DirCommits(src, names, fs, git, id).items
        ensures exists d :: d in names && IsGitRepo(Join(src, d), fs.isDir) && x.repo == d
      {
        if x in RepoCommits(pr, fs, git, id).items {
          assert x.repo == names[0];
        } else {
          var d :| d in names[1..] && IsGitRepo(Join(src, d), fs.isDir) && x.repo == d;
          assert d in names;
        }
      }
    }
  }

  // ---------------------------------------------------------------------
  // Deduplication and merge

  /** `min(nn, c, key=lambda c: c.sha)`: the second argument only when its
      sha is strictly smaller (Python's `min` keeps the first of equals). */
  function MinBySha(nn: Commit, c: Commit): Commit
  {
    if LexLess(c.sha, nn.sha) then c else nn
  }

  /** The tie-break of `get_all_commits` compares two records by the very
      key they share, so it always keeps the record seen first. */
  lemma MinByShaKeepsFirst(nn: Commit, c: Commit)
    requires nn.sha == c.sha
    ensures MinBySha(nn, c) == nn
  {
    LexLessIrreflexive(nn.sha);
  }

  function ShaSet(cs: seq<Commit>): set<string>
  {
    set c | c in cs :: c.sha
  }

  /** One record per sha, the first one met, in the order first met. */
  function DedupFirst(cs: seq<Commit>): seq<Commit>
  {
    if cs == [] then []
    else
      var init := cs[..|cs| - 1];
      var c := cs[|cs| - 1];
      if c.sha in ShaSet(init) then DedupFirst(init) else DedupFirst(init) + [c]
  }

  predicate UniqueShas(cs: seq<Commit>)
  {
    forall i, j :: 0 <= i < j < |cs| ==> cs[i].sha != cs[j].sha
  }

  /** The position of the first record with this sha. */
  function FirstIndex(cs: seq<Commit>, sha: string): (k: nat)
    requires sha in ShaSet(cs)
    ensures k < |cs| && cs[k].sha == sha
    ensures forall j :: 0 <= j < k ==> cs[j].sha != sha
  {
    if cs[0].sha == sha then 0
    else
      assert sha in ShaSet(cs[1..]) by {
        var c :| c in cs && c.sha == sha;
        assert c != cs[0];
      }
      1 + FirstIndex(cs[1..], sha)
  }

  lemma ShaSetSnoc(cs: seq<Commit>, c: Commit)
    ensures ShaSet(cs + [c]) == ShaSet(cs) + {c.sha}
  {
    assert forall x :: x in cs + [c] <==> x in cs || x == c;
  }

  lemma FirstIndexSnoc(cs: seq<Commit>, c: Commit, sha: string)
    requires sha in ShaSet(cs + [c])
    ensures sha in ShaSet(cs) ==> FirstIndex(cs + [c], sha) == FirstIndex(cs, sha)
    ensures sha !in ShaSet(cs) ==> FirstIndex(cs + [c], sha) == |cs|
  {
    var k := FirstIndex(cs + [c], sha);
    if sha in ShaSet(cs) {
      var k' := FirstIndex(cs, sha);
      assert (cs + [c])[k'] == cs[k'];
    }
  }

  lemma DedupFirstSnoc(cs: seq<Commit>, c: Commit)
    ensures DedupFirst(cs + [c]) == if c.sha in ShaSet(cs) then DedupFirst(cs) else DedupFirst(cs) + [c]
  {
    assert (cs + [c])[..|cs|] == cs;
  }

  /** `d` keeps exactly one record per sha of `cs`: distinct shas, the same
      set of shas, each the first record of `cs` with its sha, in the order
      their shas were first met. */
  predicate KeepsFirstPerSha(cs: seq<Commit>, d: seq<Commit>)
  {
    && UniqueShas(d)
    && ShaSet(d) == ShaSet(cs)
    && (forall k :: 0 <= k < |d| ==> d[k].sha in ShaSet(cs) && d[k] == cs[FirstIndex(cs, d[k].sha)])
    && (forall k, l :: 0 <= k < l < |d| ==> FirstIndex(cs, d[k].sha) < FirstIndex(cs, d[l].sha))
  }

  /** A record whose sha was met before leaves the kept records as they are. */
  lemma KeepsFirstOldSha(init: seq<Commit>, c: Commit, d: seq<Commit>)
    requires KeepsFirstPerSha(init, d) && c.sha in ShaSet(init)
    ensures KeepsFirstPerSha(init + [c], d)
  {
    var cs := init + [c];
    ShaSetSnoc(init, c);
    forall sha | sha in ShaSet(init) ensures FirstIndex(cs, sha) == FirstIndex(init, sha) {
      FirstIndexSnoc(init, c, sha);
    }
    forall k | 0 <= k < |d| ensures d[k] == cs[FirstIndex(cs, d[k].sha)] {
      assert cs[FirstIndex(init, d[k].sha)] == init[FirstIndex(init, d[k].sha)];
    }
  }

  /** A record with a new sha is kept, after all the others. */
  lemma KeepsFirstNewSha(init: seq<Commit>, c: Commit, d: seq<Commit>)
    requires KeepsFirstPerSha(init, d) && c.sha !in ShaSet(init)
    ensures KeepsFirstPerSha(init + [c], d + [c])
  {
    var cs := init + [c];
    var d' := d + [c];
    ShaSetSnoc(init, c);
    ShaSetSnoc(d, c);
    forall sha | sha in ShaSet(init) ensures FirstIndex(cs, sha) == FirstIndex(init, sha) {
      FirstIndexSnoc(init, c, sha);
    }
    FirstIndexSnoc(init, c, c.sha);
    forall k | 0 <= k < |d'|
      ensures d'[k].sha in ShaSet(cs) && d'[k] == cs[FirstIndex(cs, d'[k].sha)]
    {
      if k < |d| {
        assert d'[k] == d[k];
        assert d[k].sha in ShaSet(init);
        assert cs[FirstIndex(init, d[k].sha)] == init[FirstIndex(init, d[k].sha)];
      }
    }
    forall k, l | 0 <= k < l < |d'|
      ensures FirstIndex(cs, d'[k].sha) < FirstIndex(cs, d'[l].sha)
    {
      assert d'[k] == d[k] && d[k].sha in ShaSet(init);
      if l < |d| {
        assert d'[l] == d[l] && d[l].sha in ShaSet(init);
      }
    }
    forall i, j | 0 <= i < j < |d'| ensures d'[i].sha != d'[j].sha {
      if j == |d| {
        assert d[i] in d;
      } else {
        assert d'[i] == d[i] && d'[j] == d[j];
      }
    }
  }

  /** `get_all_commits`' dictionary keeps exactly one record per sha: the
      kept records have distinct shas, the same set of shas as the input,
      each is the first input record with its sha, and they come in the
      order their shas were first met. */
  lemma {:induction false} DedupFirstCharacterised(cs: seq<Commit>)
    ensures KeepsFirstPerSha(cs, DedupFirst(cs))
  {
    if cs != [] {
      var init := cs[..|cs| - 1];
      var c := cs[|cs| - 1];
      assert cs == init + [c];
      DedupFirstCharacterised(init);
      if c.sha in ShaSet(init) {
        KeepsFirstOldSha(init, c, DedupFirst(init));
      } else {
        KeepsFirstNewSha(init, c, DedupFirst(init));
      }
    }
  }

  /** The value `get_all_commits` returns for the stream `_iter_multi_commits`
      produces: the exception that ended the stream, or the deduplicated
      records sorted by commit time. */
  function GetAllCommitsSpec(run: Run<Commit>): Result<seq<Commit>>
  {
    if run.failure.Some? then Err(run.failure.value)
    else Ok(Sorting.SortByKey(DedupFirst(run.items), CommitTime))
  }

  /** `res` maps each sha to a record with that sha, and `order` lists
      its keys in insertion order, leading to the records of `kept`. */
  predicate DictHolds(res: map<string, Commit>, order: seq<string>, kept: seq<Commit>)
  {
    && (forall k :: k in res ==> res[k].sha == k)
    && |order| == |kept|
    && (forall j :: 0 <= j < |order| ==> order[j] in res && res[order[j]] == kept[j])
  }

  /** Inserting a new sha appends it to the insertion order. */
  lemma DictHoldsInsert(res: map<string, Commit>, order: seq<string>, kept: seq<Commit>, c: Commit)
    requires DictHolds(res, order, kept) && c.sha !in res
    ensures DictHolds(res[c.sha := c], order + [c.sha], kept + [c])
  {
    var res', order', kept' := res[c.sha := c], order + [c.sha], kept + [c];
    forall j | 0 <= j < |order'| ensures order'[j] in res' && res'[order'[j]] == kept'[j] {
      if j < |order| {
        assert order'[j] == order[j] && kept'[j] == kept[j];
        assert order[j] in res;
      }
    }
  }

  /** The state of the dictionary loop after the first `i` records. */
  predicate DedupInv(items: seq<Commit>, i: int, res: map<string, Commit>, order: seq<string>, kept: seq<Commit>)
  {
    && 0 <= i <= |items|
    && kept == DedupFirst(items[..i])
    && res.Keys == ShaSet(items[..i])
    && DictHolds(res, order, kept)
  }

  /** A record with a new sha: it is inserted and appended. */
  lemma DedupStepNew(items: seq<Commit>, i: int, res: map<string, Commit>, order: seq<string>, kept: seq<Commit>)
    requires DedupInv(items, i, res, order, kept) && i < |items| && items[i].sha !in res
    ensures DedupInv(items, i + 1, res[items[i].sha := items[i]], order + [items[i].sha], kept + [items[i]])
  {
    var cs, c := items[..i], items[i];
    assert items[..i + 1] == cs + [c];
    ShaSetSnoc(cs, c);
    DedupFirstSnoc(cs, c);
    DictHoldsInsert(res, order, kept, c);
  }

  /** A record with a sha already present leaves the deduplicated records
      as they were. */
  lemma DedupStepOld(items: seq<Commit>, i: int, res: map<string, Commit>, order: seq<string>, kept: seq<Commit>)
    requires DedupInv(items, i, res, order, kept) && i < |items| && items[i].sha in res
    ensures DedupInv(items, i + 1, res, order, kept)
  {
    var cs, c := items[..i], items[i];
    assert items[..i + 1] == cs + [c];
    ShaSetSnoc(cs, c);
    DedupFirstSnoc(cs, c);
  }

  /** `min` by sha keeps the record stored under that sha. */
  lemma MinByShaStored(res: map<string, Commit>, c: Commit)
    requires (forall k :: k in res ==> res[k].sha == k) && c.sha in res
    ensures res[c.sha := MinBySha(res[c.sha], c)] == res
  {
    MinByShaKeepsFirst(res[c.sha], c);
  }

  /** `res.values()`: the values of a dictionary in the order its keys
      were first inserted. */
  function DictValues(res: map<string, Commit>, order: seq<string>): (v: seq<Commit>)
    requires forall j :: 0 <= j < |order| ==> order[j] in res
    ensures |v| == |order| && forall j :: 0 <= j < |order| ==> v[j] == res[order[j]]
  {
    seq(|order|, j requires 0 <= j < |order| => res[order[j]])
  }

  /** After the whole stream, the values in insertion order are the
      deduplicated records. */
  lemma DedupDone(items: seq<Commit>, res: map<string, Commit>, order: seq<string>, kept: seq<Commit>)
    requires DedupInv(items, |items|, res, order, kept)
    ensures (forall j :: 0 <= j < |order| ==> order[j] in res) && DictValues(res, order) == DedupFirst(items)
  {
    assert items[..|items|] == items;
  }

  /** The dictionary loop of `get_all_commits`: the values of `res`, in
      the order their keys were first inserted. */
  method DedupBySha(items: seq<Commit>) returns (values: seq<Commit>)
    ensures values == DedupFirst(items)
  {
    var res: map<string, Commit> := map[];
    var order: seq<string> := [];
    ghost var kept: seq<Commit> := [];
    var i := 0;
    while i < |items|
      invariant DedupInv(items, i, res, order, kept)
    {
      var c := items[i];
      if c.sha !in res {
        DedupStepNew(items, i, res, order, kept);
        res := res[c.sha := c];
        order := order + [c.sha];
        kept := kept + [c];
      } else {
        DedupStepOld(items, i, res, order, kept);
        MinByShaStored(res, c);
        var nn := res[c.sha];
        res := res[c.sha := MinBySha(nn, c)];
      }
      i := i + 1;
    }
    DedupDone(items, res, order, kept);
    values := DictValues(res, order);
  }

  /** `get_all_commits`: deduplicates the stream of all commits by sha, then
      sorts the survivors by `dt`. */
  method GetAllCommits(sources: seq<Path>, fs: FileSystem, git: Git, id: Identity)
    returns (r: Result<seq<Commit>>)
    ensures r == GetAllCommitsSpec(MultiCommitsSpec(sources, fs, git, id))
  {
    var run := IterMultiCommits(sources, fs, git, id);
    if run.failure.Some? {
      return Err(run.failure.value);
    }
    var values := DedupBySha(run.items);
    return Ok(Sorting.SortByKey(values, CommitTime));
  }

  lemma TwoPositions(s: seq<Commit>, i: nat, j: nat)
    requires i < j < |s| && s[i] == s[j]
    ensures multiset(s)[s[i]] >= 2
  {
    assert s == s[..j] + s[j..];
    assert s[i] in s[..j];
    assert s[j] in s[j..];
  }

  lemma DistinctOnce(d: seq<Commit>, p: nat)
    requires UniqueShas(d) && p < |d|
    ensures multiset(d)[d[p]] == 1
  {
    assert d == [d[0]] + d[1..];
    if p == 0 {
      assert d[0] !in d[1..];
    } else {
      assert UniqueShas(d[1..]) by {
        forall i, j | 0 <= i < j < |d[1..]| ensures d[1..][i].sha != d[1..][j].sha {
          assert d[1..][i] == d[i + 1] && d[1..][j] == d[j + 1];
        }
      }
      DistinctOnce(d[1..], p - 1);
      assert d[1..][p - 1] == d[p];
      assert d[0].sha != d[p].sha;
    }
  }

  lemma SameMembers(a: seq<Commit>, b: seq<Commit>)
    requires multiset(a) == multiset(b)
    ensures forall x :: x in a <==> x in b
  {
    forall x ensures x in a <==> x in b {
      assert x in a <==> x in multiset(a);
      assert x in b <==> x in multiset(b);
    }
  }

  /** Reordering a sequence of records with distinct shas keeps the shas
      distinct and keeps the same set of shas. */
  lemma PermutationKeepsUnique(a: seq<Commit>, b: seq<Commit>)
    requires multiset(a) == multiset(b) && UniqueShas(a)
    ensures UniqueShas(b) && ShaSet(b) == ShaSet(a)
  {
    SameMembers(a, b);
    forall i, j | 0 <= i < j < |b| ensures b[i].sha != b[j].sha {
      if b[i].sha == b[j].sha {
        assert b[i] in a && b[j] in a;
        var p :| 0 <= p < |a| && a[p] == b[i];
        var q :| 0 <= q < |a| && a[q] == b[j];
        if p == q {
          TwoPositions(b, i, j);
          DistinctOnce(a, p);
        }
        assert false;
      }
    }
  }

  /** The output of `get_all_commits` holds exactly one record per distinct
      sha of the harvested stream, each the first one harvested, ordered by
      non-decreasing commit time, and stable: records with equal commit
      times keep the order in which their shas were first met. */
  lemma GetAllCommitsCharacterised(run: Run<Commit>)
    requires run.failure.None?
    ensures var out := GetAllCommitsSpec(run).value;
            && UniqueShas(out)
            && ShaSet(out) == ShaSet(run.items)
            && (forall x :: x in out ==> x.sha in ShaSet(run.items) && x == run.items[FirstIndex(run.items, x.sha)])
            && Sorting.SortedByKey(out, CommitTime)
            && (forall t :: Sorting.WithKey(out, CommitTime, t) == Sorting.WithKey(DedupFirst(run.items), CommitTime, t))
  {
    var d := DedupFirst(run.items);
    var out := Sorting.SortByKey(d, CommitTime);
    DedupFirstCharacterised(run.items);
    Sorting.SortByKeySorted(d, CommitTime);
    forall t ensures Sorting.WithKey(out, CommitTime, t) == Sorting.WithKey(d, CommitTime, t) {
      Sorting.SortByKeyStable(d, CommitTime, t);
    }
    PermutationKeepsUnique(d, out);
    SameMembers(d, out);
    forall x | x in out ensures x.sha in ShaSet(run.items) && x == run.items[FirstIndex(run.items, x.sha)] {
      var k :| 0 <= k < |d| && d[k] == x;
    }
  }
}
