# HPI commit harvesting, export readers and CLI helpers in Dafny

This project models five pieces of the HPI ("human programming interface")
personal-data toolkit and proves properties of them.

- **Git commits** (`my/coding/commits.py`). The authorship test `by_me`,
  the timezone fix-up of git datetimes, and the per-reference history walk
  `iter_commits`. It also covers `iter_all_ref_commits` over every
  reference, the repository scanner `iter_all_git_repos`, and
  `canonical_name`. Then `_iter_multi_commits` over every repository
  directly inside each source directory. Finally `get_all_commits`, which
  deduplicates by sha with a dictionary and sorts the survivors by commit
  time.
- **Instagram GDPR export** (`my/instagram/gdpr.py`). The entity stream
  `_entities`: the self user; the thread folders and message files selected
  from the archive; the numeric ordering of a thread's files; and the
  per-message parsing, with its content choice and sender resolution.
  Then the join `messages()`, which resolves each message's sender against
  the users seen so far.
- **Talon tweets** (`my/twitter/talon.py`). Dispatch of database files by
  name, row parsing (`_parse_tweet`), and the streams `tweets()` and
  `likes()` over `unique_everseen`.
- **Compressed files** (`my/core/kompress.py`). `is_compressed`, the
  reader `kopen` picks from the file-name suffix, and the arguments each
  reader is given. Also the checks `kopen` makes itself, and `kexists`.
- **The `hpi` command line** (`my/core/__main__.py`). `indent`, the
  one-key menu `_ui_getchar_pick`, module-name completion, the module
  selection of `_modules` and `modules_check`, and the handling of
  `--order-type` and `--recent` in `query_cmd`.

Python generators are modelled as a `Run`: the items yielded, then the
exception that ended the stream, if any. The source's loops become methods.
Each method is proved equal to a recursive specification function, and the
lemmas state what the source promises about those functions.

The file system, git, the archive readers, the sqlite databases and the
decompressors are not executed. They are parameters: datatypes of
functions such as `FileSystem`, `Git`, `Archive`, `Io`, and a `connect`
function for databases.

The shared modules model the Python built-ins the code relies on:
- `Streams`: `Option`, `Result`, exceptions, `Run`.
- `Text`: `str.strip`, `str(int)` and `int(str)`, `split`, `in` on strings, `fnmatch` with `*`, and string order.
- `Paths`: `pathlib` names, parents and `match`.
- `Sorting`: the stable `sorted` with an integer key.

Where the code and its design description differ, the model follows the
code:
- `iter_all_git_repos` yields one root per `HEAD` file in glob order. It
  does not resolve symbolic links or remove repeated roots.
- `_iter_multi_commits` lets every exception of a repository end the
  whole stream, except the ValueError about a missing
  `refs/heads/master`.
- An ambiguous author raises `RuntimeError("WARNING!!!", ...)`.
- The tie-break `min(nn, c, key=lambda c: c.sha)` compares two records by
  the sha they share, so it always keeps the record seen first. The model
  keeps that behaviour (`Commits.MinByShaKeepsFirst`).
- When a message has no `content`, the code's `share or photos or videos`
  yields `str(videos)` for a `videos` value that is falsy but not `None`.
  Such a message gets that text as its content and does not fail.
- `kexists` passes its subpath to `kopen` as a positional argument. For a
  plain, `.xz` or `.lz4` file the reader refuses it with a TypeError (it
  binds to `buffering`, to nothing, or to `encoding` a second time), so
  `kexists` is false for every such file.

## Model

| member | source | states |
|---|---|---|
| `Commits.ByMe` | my/coding/commits.py:27-38 | An exact configured email, or failing that an exact configured name, makes the commit mine. Otherwise the function raises RuntimeError exactly when some configured email or name occurs inside `"<email> <name>"`. In every other case the commit is not mine. |
| `Commits.ByMeAmbiguousWitness` | my/coding/commits.py:33-37 | The error case holds exactly when some configured string occurs at some index of the author line and neither field matches exactly. |
| `Commits.ByMeMonotone` | my/coding/commits.py:22-38 | Adding emails or names never un-marks a commit that was mine. It never turns an ambiguous author into "not mine". |
| `Commits.FixDatetime` | my/coding/commits.py:56-62 | Succeeds exactly when git's zone is named `fixed` and its offset is strictly within one day. The result keeps the offset and the instant. An unfixed zone fails the assertion; an out-of-range offset raises ValueError. |
| `Commits.HarvestYields` | my/coding/commits.py:71-80 | A commit yields a record exactly when it is mine and both its datetimes convert. The record carries the commit's fields, the repository name and the reference. A commit is skipped silently exactly when `by_me` says no. |
| `Commits.IterCommits` | my/coding/commits.py:65-80 | The loop over the walk returns the records of `HarvestAll`, then the walk's own exception. It stops at the first commit whose processing raises. |
| `Commits.HarvestAllCharacterised` | my/coding/commits.py:71-80 | The records yielded are those of the commits that are mine, in walk order, before the first commit whose processing raises. That commit's exception then ends the stream. |
| `Commits.IterCommitsRecords` | my/coding/commits.py:67-80 | Every record carries the repository's last path component and the reference it was produced for. It also carries the sha and the stripped message of a commit that is mine. |
| `Commits.IterAllRefCommits` | my/coding/commits.py:83-86 | Returns the concatenation of `iter_commits` over the references in order, stopping at the first that raises. A reference listing that fails raises at once. |
| `Commits.RefsCommitsTagged` | my/coding/commits.py:83-86 | Every record of `iter_all_ref_commits` is tagged with the repository's name and one of its references. |
| `Commits.GithubPatternIff` | my/coding/commits.py:110 | `match('github/repositories/*/repository')` holds exactly when the last four components are `github`, `repositories`, anything, `repository`. |
| `Commits.CanonicalName` | my/coding/commits.py:108-113 | For a GitHub backup layout, the result is the project component. Otherwise it is the last path component. |
| `Commits.CanonicalNameExamples` | my/coding/commits.py:108-113 | `/home/x/code/foo` names `foo`; `.../github/repositories/myproj/repository` names `myproj`; a layout ending in `repo` is not the backup one. |
| `Commits.IterAllGitRepos` | my/coding/commits.py:95-105 | A missing directory fails the assertion. Otherwise the result is, in glob order, the root of each `HEAD` file's parent that is a git directory, with a `.git` directory replaced by its parent. |
| `Commits.GitReposHaveGitDir` | my/coding/commits.py:99-105 | Every yielded root stands for the parent directory of some `HEAD` file, and that directory is a git directory. |
| `Commits.IterDirCommits` | my/coding/commits.py:128-138 | The loop over one source's entries returns the commits of each entry that is a git repository, in listing order. It swallows the missing-master ValueError after a repository's commits and passes on any other exception. |
| `Commits.IterMultiCommits` | my/coding/commits.py:125-138 | The loop over the sources returns the specification's stream: each source's entries in turn. A source that cannot be listed raises OSError. |
| `Commits.MultiCommitsNeverRaiseSkippable` | my/coding/commits.py:134-138 | The missing-master ValueError never escapes `_iter_multi_commits`. |
| `Commits.MultiCommitsFromGitRepos` | my/coding/commits.py:126-133 | Every record's repository name is an entry listed in some source directory, and that entry passed `is_git_repo`. |
| `Commits.MinByShaKeepsFirst` | my/coding/commits.py:152 | `min` keyed by sha, applied to two records with the same sha, returns the stored one. |
| `Commits.DedupFirstCharacterised` | my/coding/commits.py:146-153 | Deduplication keeps exactly one record per distinct sha. Each kept record is the first one harvested with its sha, and the records are in the order their shas were first met. |
| `Commits.DedupBySha` | my/coding/commits.py:146-153 | The dictionary loop, read back in key-insertion order, returns exactly the deduplicated records. |
| `Commits.GetAllCommits` | my/coding/commits.py:141-155 | Returns the exception of `_iter_multi_commits`, or its deduplicated records sorted by commit time. |
| `Commits.GetAllCommitsCharacterised` | my/coding/commits.py:146-155 | The output has distinct shas and exactly the harvested shas, each the first record harvested. It is ordered by non-decreasing commit time. Records with equal times keep the order in which their shas were first met. |
| `Instagram.Messages` | my/instagram/gdpr.py:146-168 | The loop that updates `id2user` returns the join of the entity stream, then the stream's exception. |
| `Instagram.TableIsLastUser` | my/instagram/gdpr.py:152-154 | After any prefix of the stream, `id2user` maps each id to the last user seen with it, and holds no other ids. |
| `Instagram.MessagesSnoc` | my/instagram/gdpr.py:148-166 | Each entity in turn: an exception is passed on, a user yields nothing. A message yields itself resolved to the last user seen with its sender id, or the KeyError for that id. |
| `Instagram.JoinLength` | my/instagram/gdpr.py:148-167 | `messages()` yields exactly one element per entity that is not a user. |
| `Instagram.OtherId` | my/instagram/gdpr.py:102-104 | `fname[-10:]` is the last ten characters, or the whole of a shorter name. |
| `Instagram.OtherUsername` | my/instagram/gdpr.py:106 | `fname[:-11]` is a prefix of length `len - 11`, or empty for a name of eleven characters or fewer. |
| `Instagram.FolderNameRoundTrip` | my/instagram/gdpr.py:102-106 | A folder `<username>_<id>` with a ten-character id splits back into that username and that id. |
| `Instagram.FolderNameSplit` | my/instagram/gdpr.py:102-106 | A folder name of at least eleven characters is its username part, one separator and its id part. |
| `Instagram.IsMessageFileIff` | my/instagram/gdpr.py:90 | A path matches `messages/inbox/*/message_*.json` exactly when, counting from the right, the components are `messages`, `inbox`, anything, and a name with prefix `message_` and suffix `.json`. |
| `Instagram.ThreadKeysCharacterised` | my/instagram/gdpr.py:93-96 | The threads visited are the distinct thread folders of the selected files, each once, in the order `bucket` first meets them: each folder first occurs at a file before which only the folders listed ahead of it occur. |
| `Instagram.BucketCharacterised` | my/instagram/gdpr.py:93-94 | A thread's bucket holds exactly the files in that folder. |
| `Instagram.StemOfJson` | my/instagram/gdpr.py:98 | The stem of a `.json` file name is the name without `.json`. |
| `Instagram.FirstUnnumbered` | my/instagram/gdpr.py:98 | There is no such position exactly when every file has a number, `int` of the text after its last `_`. Otherwise it is the first file without a number: every file before it has one. |
| `Instagram.SortFilesCharacterised` | my/instagram/gdpr.py:98 | Sorting raises ValueError exactly when some file has no number. Otherwise the result is a permutation of the files in non-decreasing order of number, stable among equal numbers. |
| `Instagram.MessageFileNumber` | my/instagram/gdpr.py:98 | The number of `message_<n>.json` is `int(n)`. |
| `Instagram.FileNumberExample` | my/instagram/gdpr.py:98 | `message_12.json` has number 12. |
| `Instagram.FileNumberSpaced` | my/instagram/gdpr.py:98 | `message_ 3.json` has number 3: `int` ignores the space. |
| `Instagram.ContentChoice` | my/instagram/gdpr.py:122-128 | Without `content`, the text is `str` of the first truthy of share, photos and videos. If none is truthy, it is `str(videos)` unless videos is missing or null, in which case there is no content. |
| `Instagram.ContentKeyWins` | my/instagram/gdpr.py:120-121 | A present `content` key decides alone: its decoded value, or the decoding error. |
| `Instagram.ParseMessage` | my/instagram/gdpr.py:117-139 | A message parses exactly when it has `type`, a content, `timestamp_ms`, and a decodable `sender_name`. The sender is the other user when the name equals the thread title, and the self user otherwise. A missing `type` raises KeyError; no content fails the assertion. |
| `Instagram.ParseMessages` | my/instagram/gdpr.py:115-142 | One element per message in order: the parsed message or the exception, and the loop goes on after a failure. |
| `Instagram.IterFileEntities` | my/instagram/gdpr.py:99-142 | The method returns the stream `FileEntitiesCharacterised` describes. |
| `Instagram.FileEntitiesCharacterised` | my/instagram/gdpr.py:99-142 | A read error, a missing `title` or an undecodable title is raised before anything is yielded. Otherwise the other user comes first, with id and username cut from the folder and the decoded title as name. Then comes one element per message, its parse or its exception, with no failure; or, without `messages`, the KeyError. |
| `Instagram.ThreadsEntitiesAttributed` | my/instagram/gdpr.py:96-142 | Everything the threads yield belongs to one of them: a message of that thread sent by its other user or by the self user, or that other user. |
| `Instagram.IterThreadEntities` | my/instagram/gdpr.py:96-99 | Returns a thread's files in numeric order, each file's entities in turn; a file without a number raises. |
| `Instagram.IterThreadsEntities` | my/instagram/gdpr.py:96-142 | The threads in order of first appearance, each in turn, stopping at the first exception. |
| `Instagram.Entities` | my/instagram/gdpr.py:62-142 | The method returns the stream `EntitiesCharacterised` describes. |
| `Instagram.EntitiesCharacterised` | my/instagram/gdpr.py:62-142 | Profile errors are raised before anything is yielded. Otherwise the self user comes first. An archive without message files then fails the assertion; otherwise every thread follows, in order of first appearance. Every later entity belongs to one of those threads. |
| `Instagram.SelfUserFirst` | my/instagram/gdpr.py:63-79 | When the profile reads and decodes, the first entity is the self user, whose id and username are the profile's username. |
| `Instagram.MessagesOfArchive` | my/instagram/gdpr.py:146-168 | Over a whole archive, `messages()` raises what `_entities` raised and yields one element per non-user entity. |
| `Talon.IdStrRoundTrip` | my/twitter/talon.py:97 | `int(id_str)` gives the tweet id back. |
| `Talon.UrlsCharacterised` | my/twitter/talon.py:102 | The URLs are the space-separated pieces of `other_url` that are not blank. None contains a space. |
| `Talon.UrlsRoundTrip` | my/twitter/talon.py:102 | Non-blank URLs without spaces, joined by single spaces, parse back to the same URLs. |
| `Talon.ParseTweet` | my/twitter/talon.py:85-103 | A row parses exactly when `time` and `other_url` are not NULL: a NULL time raises TypeError, a NULL URL column AttributeError. The tweet carries `str(tweet_id)`, the time, the name, the text and the URLs. |
| `Talon.ProcessRows` | my/twitter/talon.py:69-83 | One element per row in table order: the wrapped tweet or the row's exception. The loop goes on after a failure. |
| `Talon.ProcessOne` | my/twitter/talon.py:55-66 | A file with no handler yields one RuntimeError naming it. Otherwise the handler's table rows are yielded, or the connection error raised. |
| `Talon.ProcessOneKinds` | my/twitter/talon.py:55-83 | A user-tweets file yields only tweets and exceptions; a favourites file yields only favourites and exceptions. |
| `Talon.UnknownFileYieldsOneError` | my/twitter/talon.py:61-64 | An unknown file contributes exactly one RuntimeError and does not stop the stream. |
| `Talon.Entities` | my/twitter/talon.py:50-52 | The loop returns each file's stream in input order, stopping at the first connection error. |
| `Talon.UniqueEverseenCharacterised` | my/twitter/talon.py:106-108 | `unique_everseen` keeps every exception in order and every distinct entity, and yields no entity twice. Its output is the input at an increasing run of positions, and a position is among them exactly when it holds an exception or an entity not seen before it. |
| `Talon.UniqueEverseenLoop` | my/twitter/talon.py:108 | The seen-set loop returns exactly `unique_everseen` of the stream. |
| `Talon.Select` | my/twitter/talon.py:107-119 | Returns the exceptions and the tweets of the wanted kind from the de-duplicated stream, then the stream's exception. |
| `Talon.Tweets` | my/twitter/talon.py:107-112 | `tweets()` selects user tweets. |
| `Talon.Likes` | my/twitter/talon.py:114-119 | `likes()` selects favourites. |
| `Talon.SelectCharacterised` | my/twitter/talon.py:107-119 | Every exception of the stream is passed on. A tweet is yielded exactly when the stream holds it as the wanted kind. |
| `Talon.SelectNoRepeats` | my/twitter/talon.py:106-119 | `tweets()` and `likes()` never yield the same tweet twice. |
| `Kompress.ReaderFor` | my/core/kompress.py:42-79 | A compressed reader is chosen only for a name ending with its suffix, and the plain `open` exactly when no suffix matches. |
| `Kompress.SuffixesExclusive` | my/core/kompress.py:12-17 | No name ends with two different suffixes, so the order of the `elif` chain never matters. |
| `Kompress.ReaderForSuffix` | my/core/kompress.py:43-77 | A name ending with a suffix gets that suffix's reader. |
| `Kompress.CompressedIffNotPlain` | my/core/kompress.py:20-23 | `is_compressed` holds exactly when `kopen` does not fall back to plain `open`. |
| `Kompress.OnlyNameMatters` | my/core/kompress.py:20-23 | The directory of a file changes neither `is_compressed` nor the reader. |
| `Kompress.ReaderExamples` | my/core/kompress.py:43-79 | `.tar.gz`, `.xz` and `.zip` names get their readers; `notes.gz` is opened plainly. |
| `Kompress.WithEncoding` | my/core/kompress.py:38-39 | The keyword arguments gain `encoding`, kept if given and `utf8` otherwise. No other argument changes. |
| `Kompress.WithEncodingIdempotent` | my/core/kompress.py:38-39 | Filling in the default encoding twice changes nothing more. |
| `Kompress.Kopen` | my/core/kompress.py:36-79 | Per reader, `kopen` returns exactly when its calls succeed. xz, lz4 and plain need no extra positional argument (else TypeError) and a library call that does not raise; xz also needs a text mode. zstd needs the binary open to succeed. zip needs the archive to open, exactly one subpath, and the member to open. tar needs the archive to open, `extractfile` not to raise, and a regular file. A returned stream comes from the reader the suffix picks, with the encoding filled in (tar passes none). |
| `Kompress.Kexists` | my/core/kompress.py:110-115 | `kexists` is true exactly when `kopen(path, subpath)` returns instead of raising. |
| `Kompress.KexistsZip` | my/core/kompress.py:50-65 | For a zip file, `kexists` asks whether the archive and the member open. The single subpath never fails the unpacking. |
| `Kompress.KexistsTar` | my/core/kompress.py:71-77 | For a `.tar.gz` file, `kexists` asks whether the archive opens and holds a regular file at the subpath. |
| `Kompress.KexistsZstd` | my/core/kompress.py:69-70 | For a `.zstd` file, `kexists` asks whether the binary open succeeds; the subpath is dropped. |
| `Kompress.KexistsNeverPositional` | my/core/kompress.py:43-79 | For an uncompressed, `.xz` or `.lz4` file, `kexists` is always false: `kopen` raises TypeError for the positional subpath. |
| `Cli.SplitLinesFlatten` | my/core/__main__.py:68 | `splitlines(keepends=True)` loses nothing: the lines joined are the input. |
| `Cli.IndentStart` | my/core/__main__.py:67-68 | An indented text is empty or starts with a space. |
| `Cli.IndentLines` | my/core/__main__.py:67-68 | The lines of `indent(x)` are the lines of `x`, each prefixed by three spaces. |
| `Cli.IndentLineCount` | my/core/__main__.py:67-68 | Indenting keeps the number of lines. |
| `Cli.IndentRoundTrip` | my/core/__main__.py:67-68 | Removing three spaces from every line of `indent(x)` gives `x` back. |
| `Cli.KeyForInjective` | my/core/__main__.py:346-352 | Different menu positions get different keys. |
| `Cli.KeyMapBijective` | my/core/__main__.py:347-353 | The key map is one-to-one, and its values are exactly the indices of the choices. |
| `Cli.PickSpecChoice` | my/core/__main__.py:343-362 | With at least one choice and every key buildable, the menu never raises. It has answered exactly when one of its keys has been pressed. |
| `Cli.PickSpecKey` | my/core/__main__.py:357-362 | The index returned is a valid one. It belongs to the first valid key pressed; earlier presses are no keys. |
| `Cli.UiGetcharPick` | my/core/__main__.py:338-362 | The method builds the key map, then reads presses until one is a key. It fails the assertion with no choices, and raises ValueError when a key would be past U+10FFFF. |
| `Cli.SortStringsSorted` | my/core/__main__.py:526 | `sorted` of the module names is in string order. |
| `Cli.ModuleAutocompleteCharacterised` | my/core/__main__.py:522-530 | Completion offers, in sorted order, every module name starting with what was typed, as often as it occurs among the modules, and nothing else. |
| `Cli.Modules` | my/core/__main__.py:200-208 | Yields the modules to show, in order, and collects the names of the others for the warning. |
| `Cli.ModulesPartition` | my/core/__main__.py:200-206 | Every module is shown or skipped. With `all`, none is skipped; otherwise exactly those with a skip reason are. |
| `Cli.ModulesCheckPlan` | my/core/__main__.py:211-231 | Naming modules forces verbose output and checks exactly the named modules, none skipped. Otherwise the verbosity is kept and the modules are those of `_modules(all=list_all)`. |
| `Cli.NamedModulesChecked` | my/core/__main__.py:212-231 | When modules are named, the output is verbose and every module checked is one of them, unskipped. |
| `Cli.ChosenOrderType` | my/core/__main__.py:720-730 | A type is chosen exactly for `datetime`, `date`, `int` and `float`. |
| `Cli.OrderTypeNameRoundTrip` | my/core/__main__.py:720-730 | Every type is chosen by its own name, and by no other. |
| `Cli.ApplyRecent` | my/core/__main__.py:732-736 | Without `--recent` nothing changes. With it, `before` becomes `now`, `within` the recent value, `reverse` flips, and the order type defaults to datetime. |
| `Cli.QueryPlanRecent` | my/core/__main__.py:720-736 | With `--recent` the options are fully determined: an order type is always set, and a name that is not a type still orders by datetime. |
| `Cli.ApplyRecentTwice` | my/core/__main__.py:732-736 | Applying `--recent` twice restores the direction and changes nothing else that once did not. |
| `Text.ContainsIff` | my/coding/commits.py:35 | `t in s` holds exactly when `t` occurs at some index of `s`. |
| `Text.StripCharacterised` | my/coding/commits.py:76 | `strip()` removes whitespace runs at both ends, and only those. The result is empty exactly for an all-whitespace text. |
| `Text.StripIdempotent` | my/coding/commits.py:76 | Stripping twice is stripping once. |
| `Text.DecimalRoundTrip` | my/twitter/talon.py:97 | `int(str(n)) == n` for every integer. |
| `Text.ParseIntSpaced` | my/instagram/gdpr.py:98 | `int(" 3") == 3`: surrounding whitespace is ignored. |
| `Text.ParseIntExamples` | my/instagram/gdpr.py:98 | `int` accepts a sign and a trailing newline, and refuses a space between digits. |
| `Text.SplitJoin` | my/twitter/talon.py:102 | Joining the pieces of `split(sep)` gives the input back, and no piece holds the separator. |
| `Text.GlobPrefixStarSuffix` | my/instagram/gdpr.py:90 | `prefix*suffix` matches exactly the names long enough to start with `prefix` and end with `suffix`. |
| `Paths.MatchesFour` | my/coding/commits.py:110 | A four-component relative pattern matches exactly when the last four components match it one by one. |
| `Sorting.SortByKeySorted` | my/coding/commits.py:155 | `sorted(..., key=k)` returns a permutation of its input in non-decreasing key order. |
| `Sorting.SortByKeyStable` | my/coding/commits.py:155 | `sorted` is stable: the elements sharing a key keep their relative order. |

## Left out

- `inputs()` and `max(inputs())`: the model starts from the chosen Instagram archive and from the list of Talon database files.
- Reading zip members, JSON and sqlite: an `Archive` value gives the profile, the member names and each thread file as read. A `Database` gives each table's rows, already in the `order_by='time'` order the query asks for.
- `datetime.fromtimestamp`: message and tweet times are kept as the raw values read (`timestamp_ms`, `time`). Commit datetimes are wall-clock seconds with an offset.
- `Instagram.DecodeVal`: `_decode` (latin-1 re-encoded as UTF-8) is a parameter `decode` that returns a string or an error. Its encodings are not modelled.
- `Talon.ParseTweet`: `screen_name` and `text` are plain strings, so a NULL in those columns is not modelled. The model covers NULL `time`, `tweet_id` and `other_url`.
- `Commits.IterMultiCommits`: `os.listdir` failing is modelled as OSError with a fixed text. Which OSError subclass it is, and its text, are not.
- Exception texts are the fixed strings Python would print where those are stable. The `RuntimeError` of `by_me` keeps only its first argument, `WARNING!!!`. The `AssertionError` of the xz branch of `kopen` carries a placeholder for `repr(r)`.
- `repos()`, `commits()` and the other helpers of `commits.py` below `get_all_commits` are left out because they only shell out or print.
- `CPath.open` and the alias `open = kopen` only forward to `kopen`.
- The warning `_modules` prints and the menu text `_ui_getchar_pick` prints are left out. Only the values and the exceptions are modelled.
- `click` wiring, `subprocess` calls, `config_ok`/`config_create` and the statistics part of `modules_check` after module selection are left out.
- `Cli.UiGetcharPick`: `click.getchar()` is a finite sequence of presses. When it runs out, the result is `None`, meaning the menu is still waiting; the real menu blocks.
- `Cli.UiGetcharPick`: keys are sequences of code points, so `chr` of a surrogate code point is a one-element key like any other.
- `Kompress.Kopen`: `tarfile.extractfile` called with the wrong number of arguments is folded into the library call failing (`io.open`). The TypeError texts of the refused positional arguments are abridged.
- `Text.ParseInt`: `int()` also accepts non-ASCII decimal digits and `_` between digits. The model accepts only ASCII digits and refuses `_`, so a file number written that way is modelled as a ValueError.
