/** Instagram's official GDPR export (my/instagram/gdpr.py): the entity
    stream read from the newest archive, the rules it applies to thread
    folders, message files and message JSON, and the join that resolves
    each message's sender against the users seen so far. */
module Instagram {
  import opened Streams
  import opened Text
  import opened Paths
  import Sorting

  // ---------------------------------------------------------------------
  // Records

  datatype User = User(id: string, username: string, fullName: string)

  /** `_Message`: a message whose sender is only known by id.  `created` is
      the message's `timestamp_ms` value, kept as it was read. */
  datatype RawMessage = RawMessage(created: JsonVal, text: string, threadId: string, userId: string)

  /** `Message`: a message with its sender resolved. */
  datatype Message = Message(created: JsonVal, text: string, threadId: string, user: User)

  /** One element of the stream `_entities` yields. */
  datatype Entity = EUser(user: User) | EMessage(message: RawMessage) | EFailure(error: Error)

  // ---------------------------------------------------------------------
  // The join performed by `messages()`

  /** The `id2user` table after seeing one more entity: a user inserts or
      overwrites its id, nothing else changes it. */
  function Step(table: map<string, User>, e: Entity): map<string, User>
  {
    if e.EUser? then table[e.user.id := e.user] else table
  }

  /** The `KeyError` a lookup of a missing id raises. */
  function MissingKey(k: string): Error
  {
    Error(KeyError, "'" + k + "'")
  }

  /** A message resolved against a table: its sender's user, or the
      KeyError the lookup raises. */
  function Resolve(m: RawMessage, table: map<string, User>): Result<Message>
  {
    if m.userId in table then Ok(Message(m.created, m.text, m.threadId, table[m.userId]))
    else Err(MissingKey(m.userId))
  }

  /** What `messages()` yields for one entity, given the table so far. */
  function Emit(e: Entity, table: map<string, User>): seq<Result<Message>>
  {
    match e
    case EFailure(x) => [Err(x)]
    case EUser(_) => []
    case EMessage(m) => [Resolve(m, table)]
  }

  /** What `messages()` yields for the entities `s`, starting from `table`. */
  function JoinFrom(s: seq<Entity>, table: map<string, User>): seq<Result<Message>>
  {
    if s == [] then [] else Emit(s[0], table) + JoinFrom(s[1..], Step(table, s[0]))
  }

  /** The table after the entities `s`, starting from `table`. */
  function Table(table: map<string, User>, s: seq<Entity>): map<string, User>
    decreases s
  {
    if s == [] then table else Table(Step(table, s[0]), s[1..])
  }

  /** `messages()` as a whole: the join of everything `_entities` yielded,
      then whatever `_entities` raised. */
  function MessagesSpec(entities: Run<Entity>): Run<Result<Message>>
  {
    Run(JoinFrom(entities.items, map[]), entities.failure)
  }

  /** `messages()`: walks the entity stream once, updating `id2user`. */
  method Messages(entities: Run<Entity>) returns (r: Run<Result<Message>>)
    ensures r == MessagesSpec(entities)
  {
    var items := entities.items;
    var id2user: map<string, User> := map[];
    var out: seq<Result<Message>> := [];
    var i := 0;
    while i < |items|
      invariant 0 <= i <= |items|
      invariant JoinFrom(items, map[]) == out + JoinFrom(items[i..], id2user)
    {
      assert items[i..][0] == items[i];
      assert items[i..][1..] == items[i + 1..];
      var x := items[i];
      ghost var before, table := out, id2user;
      ghost var rest := JoinFrom(items[i + 1..], Step(table, x));
      assert JoinFrom(items[i..], table) == Emit(x, table) + rest;
      match x {
        case EFailure(e) =>
          out := out + [Err(e)];
        case EUser(u) =>
          id2user := id2user[u.id := u];
          assert out == before + Emit(x, table);
        case EMessage(m) =>
          if m.userId in id2user {
            out := out + [Ok(Message(m.created, m.text, m.threadId, id2user[m.userId]))];
          } else {
            out := out + [Err(MissingKey(m.userId))];
          }
      }
      assert out == before + Emit(x, table) && id2user == Step(table, x);
      AppendAssoc(before, Emit(x, table), rest);
      i := i + 1;
    }
    assert items[i..] == [];
    return Run(out, entities.failure);
  }

  /** The last user in `s` with this id, if any: an independent reading of
      "the user the table holds". */
  function LastUser(s: seq<Entity>, id: string): Option<User>
  {
    if s == [] then None
    else if s[|s| - 1].EUser? && s[|s| - 1].user.id == id then Some(s[|s| - 1].user)
    else LastUser(s[..|s| - 1], id)
  }

  lemma {:induction false} TableSnoc(table: map<string, User>, s: seq<Entity>, e: Entity)
    ensures Table(table, s + [e]) == Step(Table(table, s), e)
    decreases s
  {
    if s != [] {
      assert (s + [e])[1..] == s[1..] + [e];
      TableSnoc(Step(table, s[0]), s[1..], e);
    }
  }

  lemma {:induction false} JoinSnoc(s: seq<Entity>, e: Entity, table: map<string, User>)
    ensures JoinFrom(s + [e], table) == JoinFrom(s, table) + Emit(e, Table(table, s))
  {
    if s == [] {
      assert JoinFrom([e], table) == Emit(e, table) + JoinFrom([], Step(table, e));
    } else {
      assert (s + [e])[0] == s[0];
      assert (s + [e])[1..] == s[1..] + [e];
      JoinSnoc(s[1..], e, Step(table, s[0]));
    }
  }

  /** The table `messages()` holds after a prefix of the stream maps each id
      to the LAST user seen with that id, and holds no other ids. */
  lemma {:induction false} TableIsLastUser(s: seq<Entity>, id: string)
    ensures id in Table(map[], s) <==> LastUser(s, id).Some?
    ensures id in Table(map[], s) ==> Table(map[], s)[id] == LastUser(s, id).value
  {
    if s != [] {
      var init := s[..|s| - 1];
      assert s == init + [s[|s| - 1]];
      TableSnoc(map[], init, s[|s| - 1]);
      TableIsLastUser(init, id);
    }
  }

  /** `messages()` entity by entity: an exception is passed on unchanged, a
      user yields nothing, and a message yields, in its place, either the
      message resolved to the last user seen with its sender id or the
      KeyError for that id. */
  lemma MessagesSnoc(s: seq<Entity>, e: Entity)
    ensures e.EFailure? ==> JoinFrom(s + [e], map[]) == JoinFrom(s, map[]) + [Err(e.error)]
    ensures e.EUser? ==> JoinFrom(s + [e], map[]) == JoinFrom(s, map[])
    ensures e.EMessage? && LastUser(s, e.message.userId).Some? ==>
              JoinFrom(s + [e], map[]) == JoinFrom(s, map[])
                + [Ok(Message(e.message.created, e.message.text, e.message.threadId,
                              LastUser(s, e.message.userId).value))]
    ensures e.EMessage? && LastUser(s, e.message.userId).None? ==>
              JoinFrom(s + [e], map[]) == JoinFrom(s, map[]) + [Err(MissingKey(e.message.userId))]
  {
    JoinSnoc(s, e, map[]);
    if e.EMessage? {
      TableIsLastUser(s, e.message.userId);
    }
  }

  /** Every entity except a user yields exactly one output element. */
  lemma {:induction false} JoinLength(s: seq<Entity>, table: map<string, User>)
    ensures |JoinFrom(s, table)| == |Filter(s, (e: Entity) => !e.EUser?)|
  {
    if s != [] {
      JoinLength(s[1..], Step(table, s[0]));
    }
  }

  // ---------------------------------------------------------------------
  // Thread folders and message files

  /** The id length `_entities` assumes for the other user. */
  const IdLength := 10

  /** `fname[-10:]`: the last ten characters, or all of a shorter name. */
  function OtherId(fname: string): (r: string)
    ensures |r| == if |fname| >= IdLength then IdLength else |fname|
    ensures EndsWith(fname, r)
  {
    if |fname| >= IdLength then fname[|fname| - IdLength..] else fname
  }

  /** `fname[:-11]`: everything before the last eleven characters, or
      nothing for a name of eleven characters or fewer. */
  function OtherUsername(fname: string): (r: string)
    ensures |r| == if |fname| > IdLength + 1 then |fname| - (IdLength + 1) else 0
    ensures StartsWith(fname, r)
  {
    if |fname| >= IdLength + 1 then fname[..|fname| - (IdLength + 1)] else ""
  }

  /** A thread folder named `<username>_<id>` with a ten-character id splits
      back into that username and that id. */
  lemma FolderNameRoundTrip(username: string, sep: char, id: string)
    requires |id| == IdLength
    ensures OtherUsername(username + [sep] + id) == username
    ensures OtherId(username + [sep] + id) == id
  {
    var f := username + [sep] + id;
    assert f[..|f| - (IdLength + 1)] == username;
    assert f[|f| - IdLength..] == id;
  }

  /** A folder name of at least eleven characters is its username part, one
      separator character and its id part. */
  lemma FolderNameSplit(fname: string)
    requires |fname| >= IdLength + 1
    ensures fname == OtherUsername(fname) + [fname[|fname| - (IdLength + 1)]] + OtherId(fname)
  {
  }

  /** The relative pattern message files must match. */
  const MessagePattern: seq<string> := ["messages", "inbox", "*", "message_*.json"]

  predicate IsMessageFile(p: Path)
  {
    MatchesPattern(p, MessagePattern)
  }

  /** What matching the pattern means, component by component (matching
      is anchored at the right, so longer paths qualify too). */
  lemma IsMessageFileIff(p: Path)
    ensures IsMessageFile(p) <==>
              |p| >= 4 && p[|p| - 4] == "messages" && p[|p| - 3] == "inbox"
              && |p[|p| - 1]| >= 13 && StartsWith(p[|p| - 1], "message_") && EndsWith(p[|p| - 1], ".json")
  {
    MatchesFour(p, "messages", "inbox", "*", "message_*.json");
    if |p| >= 4 {
      GlobLiteral(p[|p| - 4], "messages");
      GlobLiteral(p[|p| - 3], "inbox");
      GlobStarSuffix(p[|p| - 2], "");
      assert "*" + "" == "*";
      GlobPrefixStarSuffix(p[|p| - 1], "message_", ".json");
      assert "message_" + "*" + ".json" == "message_*.json";
    }
  }

  /** `[Path(p) for p in z.namelist() if Path(p).match(...)]`. */
  function SelectFiles(names: seq<Path>): seq<Path>
  {
    Filter(names, IsMessageFile)
  }

  /** `p.parts[2]`: the thread folder of a matching path. */
  function ThreadKey(p: Path): string
  {
    if |p| >= 3 then p[2] else ""
  }

  /** The keys of `bucket(files, key=...)`, in the order first met. */
  function ThreadKeys(files: seq<Path>): seq<string>
  {
    if files == [] then []
    else
      var init := files[..|files| - 1];
      var k := ThreadKey(files[|files| - 1]);
      if k in ThreadKeys(init) then ThreadKeys(init) else ThreadKeys(init) + [k]
  }

  /** `list(buckets[k])`: the files with thread key `k`, in order. */
  function Bucket(files: seq<Path>, k: string): seq<Path>
  {
    if files == [] then []
    else (if ThreadKey(files[0]) == k then [files[0]] else []) + Bucket(files[1..], k)
  }

  lemma {:induction false} ThreadKeysMembers(files: seq<Path>)
    ensures forall i, j :: 0 <= i < j < |ThreadKeys(files)| ==> ThreadKeys(files)[i] != ThreadKeys(files)[j]
    ensures forall k :: k in ThreadKeys(files) <==> exists f :: f in files && ThreadKey(f) == k
  {
    if files != [] {
      var init := files[..|files| - 1];
      var last := files[|files| - 1];
      assert files == init + [last];
      ThreadKeysMembers(init);
      forall k ensures k in ThreadKeys(files) <==> exists f :: f in files && ThreadKey(f) == k {
        if k in ThreadKeys(init) {
          var f :| f in init && ThreadKey(f) == k;
          assert f in files;
        }
        if exists f :: f in files && ThreadKey(f) == k {
          var f :| f in files && ThreadKey(f) == k;
          if f != last {
            assert f in init;
          }
        }
      }
    }
  }

  /** Key `j` is first met at a file before which only the keys listed
      ahead of it occur. */
  predicate FirstMetInOrder(files: seq<Path>, keys: seq<string>, j: int)
    requires 0 <= j < |keys|
  {
    exists p :: 0 <= p < |files| && ThreadKey(files[p]) == keys[j]
                && forall q :: 0 <= q < p ==> ThreadKey(files[q]) in keys[..j]
  }

  lemma {:induction false} ThreadKeysOrder(files: seq<Path>)
    ensures forall j :: 0 <= j < |ThreadKeys(files)| ==> FirstMetInOrder(files, ThreadKeys(files), j)
  {
    if files != [] {
      var init := files[..|files| - 1];
      var last := files[|files| - 1];
      var ks := ThreadKeys(init);
      ThreadKeysOrder(init);
      ThreadKeysMembers(init);
      forall j | 0 <= j < |ThreadKeys(files)| ensures FirstMetInOrder(files, ThreadKeys(files), j) {
        if j < |ks| {
          assert ThreadKeys(files)[..j] == ks[..j];
          assert FirstMetInOrder(init, ks, j);
          var p :| 0 <= p < |init| && ThreadKey(init[p]) == ks[j]
                   && forall q :: 0 <= q < p ==> ThreadKey(init[q]) in ks[..j];
          assert files[p] == init[p];
          assert forall q :: 0 <= q < p ==> files[q] == init[q];
        } else {
          assert ThreadKeys(files) == ks + [ThreadKey(last)];
          assert ThreadKeys(files)[..j] == ks;
          forall q | 0 <= q < |init| ensures ThreadKey(files[q]) in ks {
            assert files[q] == init[q] && init[q] in init;
          }
          assert ThreadKey(files[|init|]) == ThreadKey(last);
        }
      }
    }
  }

  /** The threads are the distinct thread keys of the files, each once, in
      the order `bucket` first meets them. */
  lemma ThreadKeysCharacterised(files: seq<Path>)
    ensures forall i, j :: 0 <= i < j < |ThreadKeys(files)| ==> ThreadKeys(files)[i] != ThreadKeys(files)[j]
    ensures forall k :: k in ThreadKeys(files) <==> exists f :: f in files && ThreadKey(f) == k
    ensures forall j :: 0 <= j < |ThreadKeys(files)| ==> FirstMetInOrder(files, ThreadKeys(files), j)
  {
    ThreadKeysMembers(files);
    ThreadKeysOrder(files);
  }

  /** A bucket holds exactly the files with its key, in their order. */
  lemma {:induction false} BucketCharacterised(files: seq<Path>, k: string)
    ensures forall f :: f in Bucket(files, k) <==> f in files && ThreadKey(f) == k
    ensures |Bucket(files, k)| <= |files|
  {
    if files != [] {
      BucketCharacterised(files[1..], k);
      assert files == [files[0]] + files[1..];
    }
  }

  /** The last dot of a name (`str.rfind('.')`), or -1. */
  function LastDot(name: string): (i: int)
    ensures -1 <= i < |name|
    ensures i >= 0 ==> name[i] == '.' && forall j :: i < j < |name| ==> name[j] != '.'
    ensures i == -1 ==> forall j :: 0 <= j < |name| ==> name[j] != '.'
  {
    if name == [] then -1
    else if name[|name| - 1] == '.' then |name| - 1
    else LastDot(name[..|name| - 1])
  }

  /** `PurePath.stem`: the name without its last suffix; a name whose only
      dot is its first or last character has no suffix. */
  function Stem(name: string): string
  {
    var i := LastDot(name);
    if 0 < i < |name| - 1 then name[..i] else name
  }

  /** The stem of a `.json` name with something before the suffix is the
      name without `.json`. */
  lemma StemOfJson(name: string)
    requires EndsWith(name, ".json") && |name| >= 6
    ensures Stem(name) == name[..|name| - 5]
  {
    assert name[|name| - 5..] == ".json";
    assert name[|name| - 5] == '.';
    assert forall j :: |name| - 5 < j < |name| ==> name[j] != '.' by {
      forall j | |name| - 5 < j < |name| ensures name[j] != '.' {
        assert name[j] == ".json"[j - (|name| - 5)];
      }
    }
    var i := LastDot(name);
    assert i == |name| - 5;
  }

  function LastPiece(pieces: seq<string>): string
    requires |pieces| >= 1
  {
    pieces[|pieces| - 1]
  }

  /** `int(p.stem.split('_')[-1])`, or `None` where `int` raises. */
  function FileNumber(p: Path): Option<int>
  {
    ParseInt(LastPiece(SplitOn(Stem(Name(p)), '_')))
  }

  /** The sort key; used only once every file has a number. */
  function FileKey(p: Path): int
  {
    match FileNumber(p)
    case Some(n) => n
    case None => 0
  }

  /** The position of the first file without a number, if any: `sorted`
      computes the keys in order and raises on the first that fails. */
  function FirstUnnumbered(files: seq<Path>): (r: Option<nat>)
    ensures r.None? <==> forall f :: f in files ==> FileNumber(f).Some?
    ensures r.Some? ==> r.value < |files| && FileNumber(files[r.value]).None?
    ensures r.Some? ==> forall j :: 0 <= j < r.value ==> FileNumber(files[j]).Some?
  {
    FirstIndex(files, (f: Path) => FileNumber(f).None?)
  }

  const IntLiteralMessage := "invalid literal for int() with base 10: '"

  /** `sorted(ffiles, key=lambda p: int(p.stem.split('_')[-1]))`. */
  function SortFiles(files: seq<Path>): Result<seq<Path>>
  {
    match FirstUnnumbered(files)
    case Some(i) =>
      Err(Error(ValueError, IntLiteralMessage + LastPiece(SplitOn(Stem(Name(files[i])), '_')) + "'"))
    case None => Ok(Sorting.SortByKey(files, FileKey))
  }

  /** A thread's files are read in ascending order of their number (a
      permutation of the files, stable among equal numbers), and the sort
      fails with ValueError exactly when some file has no number. */
  lemma SortFilesCharacterised(files: seq<Path>)
    ensures SortFiles(files).Err? <==> exists f :: f in files && FileNumber(f).None?
    ensures SortFiles(files).Err? ==> SortFiles(files).error.kind == ValueError
    ensures SortFiles(files).Ok? ==>
              var out := SortFiles(files).value;
              && multiset(out) == multiset(files)
              && (forall i :: 0 <= i < |out| ==> FileNumber(out[i]).Some?)
              && (forall i, j :: 0 <= i < j < |out| ==> FileNumber(out[i]).value <= FileNumber(out[j]).value)
              && (forall n :: Sorting.WithKey(out, FileKey, n) == Sorting.WithKey(files, FileKey, n))
  {
    if SortFiles(files).Ok? {
      var out := Sorting.SortByKey(files, FileKey);
      assert SortFiles(files).value == out;
      Sorting.SortByKeySorted(files, FileKey);
      forall n ensures Sorting.WithKey(out, FileKey, n) == Sorting.WithKey(files, FileKey, n) {
        Sorting.SortByKeyStable(files, FileKey, n);
      }
      NumberedKeys(files, out);
    }
  }

  lemma NumberedKeys(files: seq<Path>, out: seq<Path>)
    requires forall f :: f in files ==> FileNumber(f).Some?
    requires multiset(out) == multiset(files)
    requires Sorting.SortedByKey(out, FileKey)
    ensures forall i :: 0 <= i < |out| ==> FileNumber(out[i]).Some?
    ensures forall i, j :: 0 <= i < j < |out| ==> FileNumber(out[i]).value <= FileNumber(out[j]).value
  {
    forall i | 0 <= i < |out| ensures FileNumber(out[i]).Some? {
      assert out[i] in multiset(files);
    }
    forall i, j | 0 <= i < j < |out| ensures FileNumber(out[i]).value <= FileNumber(out[j]).value {
      assert out[i] in multiset(files) && out[j] in multiset(files);
      assert FileKey(out[i]) <= FileKey(out[j]);
    }
  }

  /** The number of `message_<piece>.json` is `int(piece)`. */
  lemma MessageFileNumber(thread: string, name: string, piece: string)
    requires '_' !in piece && '.' !in piece && name == "message_" + piece + ".json"
    ensures FileNumber(["messages", "inbox", thread, name]) == ParseInt(piece)
  {
    assert Name(["messages", "inbox", thread, name]) == name;
    StemOfJson(name);
    assert Stem(name) == "message_" + piece;
    assert "message_" + piece == "message" + ['_'] + piece;
    SplitOnFirst("message", '_', piece);
    SplitOnNoSep(piece, '_');
  }

  /** `message_12.json` is file 12. */
  lemma FileNumberExample()
    ensures FileNumber(["messages", "inbox", "alice_0123456789", "message_12.json"]) == Some(12)
  {
    MessageFileNumber("alice_0123456789", "message_12.json", "12");
    ParseIntTwelve();
  }

  /** `message_ 3.json` is file 3: `int` ignores the space. */
  lemma FileNumberSpaced()
    ensures FileNumber(["messages", "inbox", "alice_0123456789", "message_ 3.json"]) == Some(3)
  {
    MessageFileNumber("alice_0123456789", "message_ 3.json", " 3");
    ParseIntSpaced();
  }

  // ---------------------------------------------------------------------
  // Message JSON

  /** A JSON value as the message code sees it: its truthiness and `str`. */
  datatype JsonVal = JNull | JStr(s: string) | JNum(n: int) | JOther(truthy: bool, repr: string)

  type JsonObject = map<string, JsonVal>

  /** Python truthiness of a decoded JSON value. */
  predicate Truthy(v: JsonVal)
  {
    match v
    case JNull => false
    case JStr(s) => s != ""
    case JNum(n) => n != 0
    case JOther(t, _) => t
  }

  /** `str(v)`. */
  function Repr(v: JsonVal): string
  {
    match v
    case JNull => "None"
    case JStr(s) => s
    case JNum(n) => Decimal(n)
    case JOther(_, r) => r
  }

  /** `jm.get(k)`: a missing key reads as None, like JSON null. */
  function Get(jm: JsonObject, k: string): JsonVal
  {
    if k in jm then jm[k] else JNull
  }

  /** Python's `a or b`: `a` when it is truthy, else `b`. */
  function Or(a: JsonVal, b: JsonVal): JsonVal
  {
    if Truthy(a) then a else b
  }

  const NoEncodeMessage := "object has no attribute 'encode'"

  /** `_decode(v)` on a JSON value: the re-encoding (given as `decode`) of a
      string; any other value has no `encode` and raises AttributeError. */
  function DecodeVal(v: JsonVal, decode: string -> Result<string>): Result<string>
  {
    if v.JStr? then decode(v.s) else Err(Error(AttributeError, NoEncodeMessage))
  }

  /** The content chosen for a message: its `content` field decoded when the
      key is present; otherwise `str` of `share or photos or videos` unless
      that is None; `Ok(None)` when there is no content. */
  function ContentOf(jm: JsonObject, decode: string -> Result<string>): Result<Option<string>>
  {
    if "content" in jm then
      match DecodeVal(jm["content"], decode)
      case Err(e) => Err(e)
      case Ok(s) => Ok(Some(s))
    else
      var cc := Or(Or(Get(jm, "share"), Get(jm, "photos")), Get(jm, "videos"));
      if cc == JNull then Ok(None) else Ok(Some(Repr(cc)))
  }

  /** The first truthy value of `vs`, if any. */
  function FirstTruthy(vs: seq<JsonVal>): Option<JsonVal>
  {
    if vs == [] then None else if Truthy(vs[0]) then Some(vs[0]) else FirstTruthy(vs[1..])
  }

  lemma FirstTruthyOfThree(a: JsonVal, b: JsonVal, c: JsonVal)
    ensures FirstTruthy([a, b, c]) == if Truthy(a) then Some(a) else if Truthy(b) then Some(b)
                                     else if Truthy(c) then Some(c) else None
  {
    assert [a, b, c][1..] == [b, c];
    assert [b, c][1..] == [c];
    assert [c][1..] == [];
    assert FirstTruthy([c]) == if Truthy(c) then Some(c) else FirstTruthy([]);
    assert FirstTruthy([b, c]) == if Truthy(b) then Some(b) else FirstTruthy([c]);
  }

  /** Without a `content` key, the content is `str` of the first truthy of
      share, photos and videos.  When none is truthy it is `str(videos)`
      unless `videos` is missing or null, in which case there is none. */
  lemma ContentChoice(jm: JsonObject, decode: string -> Result<string>)
    requires "content" !in jm
    ensures var vs := [Get(jm, "share"), Get(jm, "photos"), Get(jm, "videos")];
            && (FirstTruthy(vs).Some? ==> ContentOf(jm, decode) == Ok(Some(Repr(FirstTruthy(vs).value))))
            && (FirstTruthy(vs).None? && Get(jm, "videos") != JNull ==>
                  ContentOf(jm, decode) == Ok(Some(Repr(Get(jm, "videos")))))
            && (FirstTruthy(vs).None? && Get(jm, "videos") == JNull ==> ContentOf(jm, decode) == Ok(None))
  {
    FirstTruthyOfThree(Get(jm, "share"), Get(jm, "photos"), Get(jm, "videos"));
  }

  /** A present `content` key always wins, whatever share/photos/videos hold. */
  lemma ContentKeyWins(jm: JsonObject, decode: string -> Result<string>)
    requires "content" in jm
    ensures ContentOf(jm, decode).Ok? <==> DecodeVal(jm["content"], decode).Ok?
    ensures ContentOf(jm, decode).Ok? ==> ContentOf(jm, decode) == Ok(Some(DecodeVal(jm["content"], decode).value))
  {
  }

  /** What a thread file contributes to every message it holds. */
  datatype ThreadContext = ThreadContext(fname: string, otherId: string, otherFullName: string, selfId: string)

  /** The body of the `try` in `_entities` for one message object: the
      `_Message`, or the exception it raises (missing `type`; a content
      that fails to decode or is absent; missing `timestamp_ms`; a missing
      or undecodable `sender_name`), which is yielded in its place. */
  function ParseMessage(jm: JsonObject, ctx: ThreadContext, decode: string -> Result<string>): (r: Result<RawMessage>)
    ensures "type" !in jm ==> r == Err(MissingKey("type"))
    ensures r.Ok? <==>
              "type" in jm && ContentOf(jm, decode).Ok? && ContentOf(jm, decode).value.Some?
              && "timestamp_ms" in jm && "sender_name" in jm && DecodeVal(jm["sender_name"], decode).Ok?
    ensures r.Ok? ==>
              && r.value.text == ContentOf(jm, decode).value.value
              && r.value.created == jm["timestamp_ms"]
              && r.value.threadId == ctx.fname
              && (DecodeVal(jm["sender_name"], decode).value == ctx.otherFullName ==> r.value.userId == ctx.otherId)
              && (DecodeVal(jm["sender_name"], decode).value != ctx.otherFullName ==> r.value.userId == ctx.selfId)
    ensures "type" in jm && ContentOf(jm, decode) == Ok(None) ==> r.Err? && r.error.kind == AssertionError
  {
    if "type" !in jm then Err(MissingKey("type"))
    else match ContentOf(jm, decode)
      case Err(e) => Err(e)
      case Ok(content) =>
        if content.None? then Err(Error(AssertionError, ""))
        else if "timestamp_ms" !in jm then Err(MissingKey("timestamp_ms"))
        else if "sender_name" !in jm then Err(MissingKey("sender_name"))
        else match DecodeVal(jm["sender_name"], decode)
          case Err(e) => Err(e)
          case Ok(senderName) =>
            var userId := if senderName == ctx.otherFullName then ctx.otherId else ctx.selfId;
            Ok(RawMessage(jm["timestamp_ms"], content.value, ctx.fname, userId))
  }

  /** A parsed message or its exception, as a stream element. */
  function EntityOf(r: Result<RawMessage>): Entity
  {
    match r
    case Ok(m) => EMessage(m)
    case Err(e) => EFailure(e)
  }

  function ParseAll(ms: seq<JsonObject>, ctx: ThreadContext, decode: string -> Result<string>): (r: seq<Entity>)
    ensures |r| == |ms|
    ensures forall k :: 0 <= k < |ms| ==> r[k] == EntityOf(ParseMessage(ms[k], ctx, decode))
  {
    if ms == [] then [] else [EntityOf(ParseMessage(ms[0], ctx, decode))] + ParseAll(ms[1..], ctx, decode)
  }

  /** The inner loop of `_entities`: a failing message becomes an exception
      element in its place, and the loop carries on with the next one. */
  method ParseMessages(ms: seq<JsonObject>, ctx: ThreadContext, decode: string -> Result<string>)
    returns (out: seq<Entity>)
    ensures out == ParseAll(ms, ctx, decode)
  {
    out := [];
    var i := 0;
    while i < |ms|
      invariant 0 <= i <= |ms|
      invariant |out| == i
      invariant forall k :: 0 <= k < i ==> out[k] == EntityOf(ParseMessage(ms[k], ctx, decode))
    {
      var r := ParseMessage(ms[i], ctx, decode);
      if r.Ok? {
        out := out + [EMessage(r.value)];
      } else {
        out := out + [EFailure(r.error)];
      }
      i := i + 1;
    }
  }

  // ---------------------------------------------------------------------
  // The entity stream of one archive

  /** `personal_information.json`: the profile's username and raw name. */
  datatype Profile = Profile(username: string, rawName: string)

  /** A thread file: its `title` and its `messages`, `None` when the key is
      missing. */
  datatype ThreadFile = ThreadFile(title: Option<JsonVal>, messages: Option<seq<JsonObject>>)

  /** The newest export archive: its profile (or the error reading it
      raises), its member names, and each member file as read. */
  datatype Archive = Archive(profile: Result<Profile>, namelist: seq<Path>, member: Path -> Result<ThreadFile>)

  /** The entities one thread file contributes: the other user, then its
      messages; reading errors and missing keys end the stream. */
  function FileEntities(a: Archive, fname: string, file: Path, selfId: string,
                        decode: string -> Result<string>): Run<Entity>
  {
    match a.member(file)
    case Err(e) => Raise(e)
    case Ok(tf) =>
      if tf.title.None? then Raise(MissingKey("title"))
      else match DecodeVal(tf.title.value, decode)
        case Err(e) => Raise(e)
        case Ok(otherFullName) =>
          var ctx := ThreadContext(fname, OtherId(fname), otherFullName, selfId);
          Cons(EUser(User(OtherId(fname), OtherUsername(fname), otherFullName)),
               if tf.messages.None? then Raise(MissingKey("messages"))
               else Done(ParseAll(tf.messages.value, ctx, decode)))
  }

  function FilesEntities(a: Archive, fname: string, files: seq<Path>, selfId: string,
                         decode: string -> Result<string>): Run<Entity>
  {
    if files == [] then Done([])
    else Then(FileEntities(a, fname, files[0], selfId, decode), FilesEntities(a, fname, files[1..], selfId, decode))
  }

  /** One thread: its files in numeric order. */
  function ThreadEntities(a: Archive, fname: string, files: seq<Path>, selfId: string,
                          decode: string -> Result<string>): Run<Entity>
  {
    match SortFiles(Bucket(files, fname))
    case Err(e) => Raise(e)
    case Ok(sorted) => FilesEntities(a, fname, sorted, selfId, decode)
  }

  function ThreadsEntities(a: Archive, keys: seq<string>, files: seq<Path>, selfId: string,
                           decode: string -> Result<string>): Run<Entity>
  {
    if keys == [] then Done([])
    else Then(ThreadEntities(a, keys[0], files, selfId, decode), ThreadsEntities(a, keys[1..], files, selfId, decode))
  }

  /** `_entities()` for the newest archive: the self user (whose id is the
      username), then every thread in order of first appearance; an archive
      without message files fails the assertion after the self user. */
  function EntitiesSpec(a: Archive, decode: string -> Result<string>): Run<Entity>
  {
    match a.profile
    case Err(e) => Raise(e)
    case Ok(p) =>
      match decode(p.rawName)
      case Err(e) => Raise(e)
      case Ok(fullName) =>
        var files := SelectFiles(a.namelist);
        Cons(EUser(User(p.username, p.username, fullName)),
             if files == [] then Raise(Error(AssertionError, ""))
             else ThreadsEntities(a, ThreadKeys(files), files, p.username, decode))
  }

  method IterFileEntities(a: Archive, fname: string, file: Path, selfId: string, decode: string -> Result<string>)
    returns (r: Run<Entity>)
    ensures r == FileEntities(a, fname, file, selfId, decode)
  {
    var read := a.member(file);
    if read.Err? {
      return Raise(read.error);
    }
    var tf := read.value;
    if tf.title.None? {
      return Raise(MissingKey("title"));
    }
    var title := DecodeVal(tf.title.value, decode);
    if title.Err? {
      return Raise(title.error);
    }
    var otherId := OtherId(fname);
    var other := User(otherId, OtherUsername(fname), title.value);
    if tf.messages.None? {
      return Run([EUser(other)], Some(MissingKey("messages")));
    }
    var ms := ParseMessages(tf.messages.value, ThreadContext(fname, otherId, title.value, selfId), decode);
    return Run([EUser(other)] + ms, None);
  }

  method IterThreadEntities(a: Archive, fname: string, files: seq<Path>, selfId: string, decode: string -> Result<string>)
    returns (r: Run<Entity>)
    ensures r == ThreadEntities(a, fname, files, selfId, decode)
  {
    var sorted := SortFiles(Bucket(files, fname));
    if sorted.Err? {
      return Raise(sorted.error);
    }
    var fs := sorted.value;
    var out: seq<Entity> := [];
    var i := 0;
    while i < |fs|
      invariant 0 <= i <= |fs|
      invariant FilesEntities(a, fname, fs, selfId, decode) == Prepend(out, FilesEntities(a, fname, fs[i..], selfId, decode))
    {
      assert fs[i..][0] == fs[i];
      assert fs[i..][1..] == fs[i + 1..];
      PrependThen(out, FileEntities(a, fname, fs[i], selfId, decode), FilesEntities(a, fname, fs[i + 1..], selfId, decode));
      var part := IterFileEntities(a, fname, fs[i], selfId, decode);
      if part.failure.Some? {
        return Run(out + part.items, part.failure);
      }
      out := out + part.items;
      i := i + 1;
    }
    return Run(out, None);
  }

  /** The loop of `_entities` over the threads, in order of first appearance. */
  method IterThreadsEntities(a: Archive, keys: seq<string>, files: seq<Path>, selfId: string,
                             decode: string -> Result<string>)
    returns (r: Run<Entity>)
    ensures r == ThreadsEntities(a, keys, files, selfId, decode)
  {
    var out: seq<Entity> := [];
    var i := 0;
    while i < |keys|
      invariant 0 <= i <= |keys|
      invariant ThreadsEntities(a, keys, files, selfId, decode) == Prepend(out, ThreadsEntities(a, keys[i..], files, selfId, decode))
    {
      assert keys[i..][0] == keys[i];
      assert keys[i..][1..] == keys[i + 1..];
      PrependThen(out, ThreadEntities(a, keys[i], files, selfId, decode),
                  ThreadsEntities(a, keys[i + 1..], files, selfId, decode));
      var part := IterThreadEntities(a, keys[i], files, selfId, decode);
      if part.failure.Some? {
        return Run(out + part.items, part.failure);
      }
      out := out + part.items;
      i := i + 1;
    }
    return Run(out, None);
  }

  /** `_entities()`: the self user, then each thread's files in turn. */
  method Entities(a: Archive, decode: string -> Result<string>) returns (r: Run<Entity>)
    ensures r == EntitiesSpec(a, decode)
  {
    if a.profile.Err? {
      return Raise(a.profile.error);
    }
    var p := a.profile.value;
    var fullName := decode(p.rawName);
    if fullName.Err? {
      return Raise(fullName.error);
    }
    var self := EUser(User(p.username, p.username, fullName.value));
    var files := SelectFiles(a.namelist);
    if files == [] {
      return Run([self], Some(Error(AssertionError, "")));
    }
    var rest := IterThreadsEntities(a, ThreadKeys(files), files, p.username, decode);
    return Cons(self, rest);
  }

  /** The self user, with id and username both the profile's username, is
      the first entity whenever the profile can be read. */
  lemma SelfUserFirst(a: Archive, decode: string -> Result<string>)
    requires a.profile.Ok? && decode(a.profile.value.rawName).Ok?
    ensures var r := EntitiesSpec(a, decode);
            |r.items| >= 1
            && r.items[0] == EUser(User(a.profile.value.username, a.profile.value.username,
                                        decode(a.profile.value.rawName).value))
  {
  }

  /** A thread file that reads and has a decodable title: the file and the
      other user's full name. */
  function OpenedFile(a: Archive, file: Path, decode: string -> Result<string>): Result<(ThreadFile, string)>
  {
    match a.member(file)
    case Err(e) => Err(e)
    case Ok(tf) =>
      if tf.title.None? then Err(MissingKey("title"))
      else match DecodeVal(tf.title.value, decode)
        case Err(e) => Err(e)
        case Ok(name) => Ok((tf, name))
  }

  /** One thread file's contribution.  A read error, a missing `title` or
      a title that does not decode is raised before anything is yielded;
      otherwise the other user (id and username cut from the folder name)
      comes first, then one element per message, its `_Message` or its
      exception, or else the KeyError for a missing `messages` key. */
  lemma FileEntitiesCharacterised(a: Archive, fname: string, file: Path, selfId: string,
                                  decode: string -> Result<string>)
    ensures a.member(file).Err? ==> FileEntities(a, fname, file, selfId, decode) == Raise(a.member(file).error)
    ensures a.member(file).Ok? && a.member(file).value.title.None? ==>
              FileEntities(a, fname, file, selfId, decode) == Raise(MissingKey("title"))
    ensures OpenedFile(a, file, decode).Err? ==>
              FileEntities(a, fname, file, selfId, decode) == Raise(OpenedFile(a, file, decode).error)
    ensures OpenedFile(a, file, decode).Ok? ==>
              var r := FileEntities(a, fname, file, selfId, decode);
              var (tf, name) := OpenedFile(a, file, decode).value;
              && |r.items| >= 1
              && r.items[0] == EUser(User(OtherId(fname), OtherUsername(fname), name))
              && (tf.messages.None? ==> |r.items| == 1 && r.failure == Some(MissingKey("messages")))
              && (tf.messages.Some? ==>
                    && |r.items| == 1 + |tf.messages.value|
                    && r.failure.None?
                    && forall k :: 0 <= k < |tf.messages.value| ==>
                         r.items[k + 1] == EntityOf(ParseMessage(tf.messages.value[k],
                                                   ThreadContext(fname, OtherId(fname), name, selfId), decode)))
  {
  }

  /** An entity as a thread `fname` yields it: a message of that thread,
      sent by its other user or by the self user, or that other user. */
  predicate AttributedTo(e: Entity, fname: string, selfId: string)
  {
    && (e.EMessage? ==> e.message.threadId == fname && (e.message.userId == OtherId(fname) || e.message.userId == selfId))
    && (e.EUser? ==> e.user.id == OtherId(fname))
  }

  /** Every entity of `items` belongs to one of the threads `keys`. */
  predicate AllAttributed(items: seq<Entity>, keys: seq<string>, selfId: string)
  {
    forall e :: e in items ==> exists k :: k in keys && AttributedTo(e, k, selfId)
  }

  lemma FileEntitiesAttributed(a: Archive, fname: string, file: Path, selfId: string,
                               decode: string -> Result<string>)
    ensures forall e :: e in FileEntities(a, fname, file, selfId, decode).items ==> AttributedTo(e, fname, selfId)
  {
    var r := FileEntities(a, fname, file, selfId, decode);
    if OpenedFile(a, file, decode).Ok? {
      var (tf, name) := OpenedFile(a, file, decode).value;
      var ctx := ThreadContext(fname, OtherId(fname), name, selfId);
      if tf.messages.Some? {
        var ms := tf.messages.value;
        assert r.items == [EUser(User(OtherId(fname), OtherUsername(fname), name))] + ParseAll(ms, ctx, decode);
        forall e | e in ParseAll(ms, ctx, decode) ensures AttributedTo(e, fname, selfId) {
          var k :| 0 <= k < |ms| && ParseAll(ms, ctx, decode)[k] == e;
          var m := ParseMessage(ms[k], ctx, decode);
          assert e == EntityOf(m);
        }
      }
    }
  }

  lemma ThenItems<T>(x: Run<T>, y: Run<T>)
    ensures forall e :: e in Then(x, y).items ==> e in x.items || e in y.items
  {
  }

  lemma {:induction false} FilesEntitiesAttributed(a: Archive, fname: string, files: seq<Path>, selfId: string,
                                                   decode: string -> Result<string>)
    ensures forall e :: e in FilesEntities(a, fname, files, selfId, decode).items ==> AttributedTo(e, fname, selfId)
  {
    if files != [] {
      FileEntitiesAttributed(a, fname, files[0], selfId, decode);
      FilesEntitiesAttributed(a, fname, files[1..], selfId, decode);
      ThenItems(FileEntities(a, fname, files[0], selfId, decode), FilesEntities(a, fname, files[1..], selfId, decode));
    }
  }

  /** Everything a group of threads yields belongs to one of them. */
  lemma {:induction false} ThreadsEntitiesAttributed(a: Archive, keys: seq<string>, files: seq<Path>, selfId: string,
                                                     decode: string -> Result<string>)
    ensures AllAttributed(ThreadsEntities(a, keys, files, selfId, decode).items, keys, selfId)
  {
    if keys != [] {
      var first := ThreadEntities(a, keys[0], files, selfId, decode);
      var rest := ThreadsEntities(a, keys[1..], files, selfId, decode);
      if SortFiles(Bucket(files, keys[0])).Ok? {
        FilesEntitiesAttributed(a, keys[0], SortFiles(Bucket(files, keys[0])).value, selfId, decode);
      }
      ThreadsEntitiesAttributed(a, keys[1..], files, selfId, decode);
      ThenItems(first, rest);
      forall e | e in Then(first, rest).items ensures exists k :: k in keys && AttributedTo(e, k, selfId) {
        if e in first.items {
          assert keys[0] in keys && AttributedTo(e, keys[0], selfId);
        } else {
          assert e in rest.items;
          var k :| k in keys[1..] && AttributedTo(e, k, selfId);
          assert k in keys;
        }
      }
    }
  }

  /** `_entities()` as a whole.  Errors reading the profile or decoding
      its name are raised before anything is yielded.  Otherwise the self
      user comes first; an archive without message files then fails the
      assertion, and one with message files goes on with every thread, in
      the order its folder first appears.  Every entity after the self
      user belongs to one of those threads: a message of the thread sent
      by its other user or by the self user, or that other user. */
  lemma EntitiesCharacterised(a: Archive, decode: string -> Result<string>)
    ensures a.profile.Err? ==> EntitiesSpec(a, decode) == Raise(a.profile.error)
    ensures a.profile.Ok? && decode(a.profile.value.rawName).Err? ==>
              EntitiesSpec(a, decode) == Raise(decode(a.profile.value.rawName).error)
    ensures a.profile.Ok? && decode(a.profile.value.rawName).Ok? ==>
              var p := a.profile.value;
              var self := EUser(User(p.username, p.username, decode(p.rawName).value));
              var files := SelectFiles(a.namelist);
              var r := EntitiesSpec(a, decode);
              && |r.items| >= 1 && r.items[0] == self
              && (files == [] ==> r == Run([self], Some(Error(AssertionError, ""))))
              && (files != [] ==> r == Cons(self, ThreadsEntities(a, ThreadKeys(files), files, p.username, decode)))
              && AllAttributed(r.items[1..], ThreadKeys(files), p.username)
  {
    if a.profile.Ok? && decode(a.profile.value.rawName).Ok? {
      var p := a.profile.value;
      var files := SelectFiles(a.namelist);
      var r := EntitiesSpec(a, decode);
      if files != [] {
        var rest := ThreadsEntities(a, ThreadKeys(files), files, p.username, decode);
        ThreadsEntitiesAttributed(a, ThreadKeys(files), files, p.username, decode);
        assert r.items[1..] == rest.items;
      } else {
        assert r.items[1..] == [];
      }
    }
  }

  /** The whole pipeline: `messages()` over `_entities()` of an archive. */
  lemma MessagesOfArchive(a: Archive, decode: string -> Result<string>)
    ensures MessagesSpec(EntitiesSpec(a, decode)).failure == EntitiesSpec(a, decode).failure
    ensures |MessagesSpec(EntitiesSpec(a, decode)).items|
            == |Filter(EntitiesSpec(a, decode).items, (e: Entity) => !e.EUser?)|
  {
    JoinLength(EntitiesSpec(a, decode).items, map[]);
  }
}
