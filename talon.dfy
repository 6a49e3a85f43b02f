/** Tweets and likes from the databases of the Talon Android app
    (my/twitter/talon.py): dispatch of database files by name, row
    parsing, and the de-duplicating streams `tweets()` and `likes()`. */
module Talon {
  import opened Streams
  import opened Text
  import opened Paths

  /** A tweet.  `createdAt` is the row's `time` (milliseconds since the
      epoch, UTC), kept as read. */
  datatype Tweet = Tweet(idStr: string, createdAt: int, screenName: string, text: string, urls: seq<string>)

  /** `_IsTweet` / `_IsFavorire`: which table a tweet came from.  Two
      entities are equal when they are of the same kind with equal tweets. */
  datatype TalonEntity = IsTweet(tweet: Tweet) | IsFavorite(tweet: Tweet)

  /** A row of the `lists` or `favorite_tweets` table; `None` is SQL NULL. */
  datatype Row = Row(time: Option<int>, tweetId: Option<int>, screenName: string, text: string,
                     otherUrl: Option<string>)

  // ---------------------------------------------------------------------
  // Row parsing

  /** `str(row['tweet_id'])`. */
  function IdStr(tweetId: Option<int>): string
  {
    match tweetId
    case Some(n) => Decimal(n)
    case None => "None"
  }

  /** `id_str` is the decimal form of the id: parsing it gives the id back. */
  lemma IdStrRoundTrip(n: int)
    ensures ParseInt(IdStr(Some(n))) == Some(n)
  {
    DecimalRoundTrip(n);
  }

  predicate NonBlank(u: string)
  {
    |Strip(u)| > 0
  }

  /** `tuple(u for u in s.split(' ') if len(u.strip()) > 0)`. */
  function Urls(s: string): seq<string>
  {
    Filter(SplitOn(s, ' '), NonBlank)
  }

  /** The URLs are the space-separated pieces of `other_url` that are not
      blank, in their original order; none contains a space. */
  lemma UrlsCharacterised(s: string)
    ensures forall u :: u in Urls(s) <==> u in SplitOn(s, ' ') && NonBlank(u)
    ensures forall u :: u in Urls(s) ==> ' ' !in u && Strip(u) != []
    ensures |Urls(s)| <= |SplitOn(s, ' ')|
  {
    FilterSubset(SplitOn(s, ' '), NonBlank);
    SplitJoin(s, ' ');
  }

  /** Splitting a space-joined list of pieces without spaces gives the pieces. */
  lemma {:induction false} SplitJoined(pieces: seq<string>)
    requires |pieces| >= 1
    requires forall p :: p in pieces ==> ' ' !in p
    ensures SplitOn(JoinWith(pieces, ' '), ' ') == pieces
  {
    if |pieces| == 1 {
      SplitOnNoSep(pieces[0], ' ');
    } else {
      SplitJoined(pieces[1..]);
      assert pieces[0] in pieces;
      SplitOnFirst(pieces[0], ' ', JoinWith(pieces[1..], ' '));
    }
  }

  /** Writing non-blank URLs without spaces into `other_url`, separated by
      single spaces, and reading them back gives the same URLs. */
  lemma UrlsRoundTrip(urls: seq<string>)
    requires |urls| >= 1
    requires forall u :: u in urls ==> ' ' !in u && NonBlank(u)
    ensures Urls(JoinWith(urls, ' ')) == urls
  {
    SplitJoined(urls);
    FilterAll(urls, NonBlank);
  }

  // What Python says about a NULL column, and `_process_one` about a file
  // it has no handler for (spelled as in the source).
  const NoTimeMessage := "unsupported operand type(s) for /: 'NoneType' and 'int'"
  const NoUrlMessage := "'NoneType' object has no attribute 'split'"
  const NoHandlerMessage := "Coulnd't find handler for "

  /** `_parse_tweet`: `row['time'] / 1000` raises TypeError on NULL, and
      `row['other_url'].split` raises AttributeError on NULL. */
  function ParseTweet(row: Row): (r: Result<Tweet>)
    ensures row.time.None? ==> r.Err? && r.error.kind == TypeError
    ensures row.time.Some? && row.otherUrl.None? ==> r.Err? && r.error.kind == AttributeError
    ensures r.Ok? <==> row.time.Some? && row.otherUrl.Some?
    ensures r.Ok? ==> r.value.idStr == IdStr(row.tweetId) && r.value.urls == Urls(row.otherUrl.value)
                      && r.value.createdAt == row.time.value && r.value.screenName == row.screenName
                      && r.value.text == row.text
  {
    if row.time.None? then Err(Error(TypeError, NoTimeMessage))
    else if row.otherUrl.None? then Err(Error(AttributeError, NoUrlMessage))
    else Ok(Tweet(IdStr(row.tweetId), row.time.value, row.screenName, row.text, Urls(row.otherUrl.value)))
  }

  // ---------------------------------------------------------------------
  // Row handlers and dispatch

  /** Which table a handler reads and which wrapper it applies. */
  datatype Kind = UserTweets | FavoriteTweets

  function Wrap(kind: Kind, t: Tweet): TalonEntity
  {
    match kind
    case UserTweets => IsTweet(t)
    case FavoriteTweets => IsFavorite(t)
  }

  /** One row as a stream element: the wrapped tweet, or the exception
      parsing raised, yielded in the row's place. */
  function RowEntity(kind: Kind, row: Row): Result<TalonEntity>
  {
    match ParseTweet(row)
    case Ok(t) => Ok(Wrap(kind, t))
    case Err(e) => Err(e)
  }

  function RowEntities(kind: Kind, rows: seq<Row>): (r: seq<Result<TalonEntity>>)
    ensures |r| == |rows|
    ensures forall k :: 0 <= k < |rows| ==> r[k] == RowEntity(kind, rows[k])
  {
    if rows == [] then [] else [RowEntity(kind, rows[0])] + RowEntities(kind, rows[1..])
  }

  /** `_process_user_tweets` / `_process_favorite_tweets`: every row, in
      table order, becomes one element; a row that fails to parse does not
      stop the rows after it. */
  method ProcessRows(kind: Kind, rows: seq<Row>) returns (out: seq<Result<TalonEntity>>)
    ensures out == RowEntities(kind, rows)
  {
    out := [];
    var i := 0;
    while i < |rows|
      invariant 0 <= i <= |rows|
      invariant |out| == i
      invariant forall k :: 0 <= k < i ==> out[k] == RowEntity(kind, rows[k])
    {
      var p := ParseTweet(rows[i]);
      if p.Ok? {
        out := out + [Ok(Wrap(kind, p.value))];
      } else {
        out := out + [Err(p.error)];
      }
      i := i + 1;
    }
  }

  /** An opened database: the rows of `lists` and of `favorite_tweets`,
      each ordered by `time`. */
  datatype Database = Database(lists: seq<Row>, favoriteTweets: seq<Row>)

  /** The handler table of `_process_one`. */
  function HandlerFor(fname: string): Option<Kind>
  {
    if fname == "user_tweets.db" then Some(UserTweets)
    else if fname == "favorite_tweets.db" then Some(FavoriteTweets)
    else None
  }

  function TableRows(db: Database, kind: Kind): seq<Row>
  {
    match kind
    case UserTweets => db.lists
    case FavoriteTweets => db.favoriteTweets
  }

  /** `_process_one(f)`: a file with no handler yields one RuntimeError;
      otherwise the database is opened (`connect`, whose failure ends the
      stream) and its handler's rows are yielded. */
  function ProcessOne(f: Path, connect: Path -> Result<Database>): (r: Run<Result<TalonEntity>>)
    ensures HandlerFor(Name(f)).None? ==>
              r == Done([Err(Error(RuntimeError, NoHandlerMessage + Name(f)))])
    ensures Name(f) == "user_tweets.db" && connect(f).Ok? ==> r == Done(RowEntities(UserTweets, connect(f).value.lists))
    ensures Name(f) == "favorite_tweets.db" && connect(f).Ok? ==>
              r == Done(RowEntities(FavoriteTweets, connect(f).value.favoriteTweets))
    ensures HandlerFor(Name(f)).Some? && connect(f).Err? ==> r == Raise(connect(f).error)
  {
    match HandlerFor(Name(f))
    case None => Done([Err(Error(RuntimeError, NoHandlerMessage + Name(f)))])
    case Some(kind) =>
      match connect(f)
      case Err(e) => Raise(e)
      case Ok(db) => Done(RowEntities(kind, TableRows(db, kind)))
  }

  /** A user-tweets file yields only tweets and exceptions, a favourites file
      only favourites and exceptions. */
  lemma ProcessOneKinds(f: Path, connect: Path -> Result<Database>)
    ensures forall x :: x in ProcessOne(f, connect).items && x.Ok? && Name(f) == "user_tweets.db" ==> x.value.IsTweet?
    ensures forall x :: x in ProcessOne(f, connect).items && x.Ok? && Name(f) == "favorite_tweets.db" ==> x.value.IsFavorite?
  {
  }

  /** `_entities()`: the files in input order, each processed in turn. */
  function EntitiesSpec(files: seq<Path>, connect: Path -> Result<Database>): Run<Result<TalonEntity>>
  {
    if files == [] then Done([]) else Then(ProcessOne(files[0], connect), EntitiesSpec(files[1..], connect))
  }

  /** The loop of `_entities()` over the input files. */
  method Entities(files: seq<Path>, connect: Path -> Result<Database>) returns (r: Run<Result<TalonEntity>>)
    ensures r == EntitiesSpec(files, connect)
  {
    var out: seq<Result<TalonEntity>> := [];
    var i := 0;
    while i < |files|
      invariant 0 <= i <= |files|
      invariant EntitiesSpec(files, connect) == Prepend(out, EntitiesSpec(files[i..], connect))
    {
      assert files[i..][0] == files[i];
      assert files[i..][1..] == files[i + 1..];
      PrependThen(out, ProcessOne(files[i], connect), EntitiesSpec(files[i + 1..], connect));
      var part: Run<Result<TalonEntity>>;
      var kind := HandlerFor(Name(files[i]));
      if kind.None? {
        part := Done([Err(Error(RuntimeError, NoHandlerMessage + Name(files[i])))]);
      } else {
        var db := connect(files[i]);
        if db.Err? {
          return Run(out, Some(db.error));
        }
        var rows := ProcessRows(kind.value, TableRows(db.value, kind.value));
        part := Done(rows);
      }
      out := out + part.items;
      i := i + 1;
    }
    return Run(out, None);
  }

  // ---------------------------------------------------------------------
  // De-duplication and selection

  /** The entities (not the exceptions) among `s`. */
  function OkSet(s: seq<Result<TalonEntity>>): set<TalonEntity>
  {
    set x | x in s && x.Ok? :: x.value
  }

  /** `unique_everseen`: each entity the first time it is seen.  Exceptions
      compare by identity, so every yielded exception is new and kept. */
  function UniqueEverseen(s: seq<Result<TalonEntity>>): seq<Result<TalonEntity>>
  {
    if s == [] then []
    else
      var init := s[..|s| - 1];
      var x := s[|s| - 1];
      if x.Ok? && x.value in OkSet(init) then UniqueEverseen(init) else UniqueEverseen(init) + [x]
  }

  /** The exceptions among `s`, in order. */
  function Errors(s: seq<Result<TalonEntity>>): seq<Error>
  {
    if s == [] then []
    else Errors(s[..|s| - 1]) + (if s[|s| - 1].Err? then [s[|s| - 1].error] else [])
  }

  lemma OkSetSnoc(s: seq<Result<TalonEntity>>, x: Result<TalonEntity>)
    ensures OkSet(s + [x]) == OkSet(s) + (if x.Ok? then {x.value} else {})
  {
    assert forall y :: y in s + [x] <==> y in s || y == x;
  }

  lemma {:induction false} UniqueEverseenSets(s: seq<Result<TalonEntity>>)
    ensures Errors(UniqueEverseen(s)) == Errors(s)
    ensures OkSet(UniqueEverseen(s)) == OkSet(s)
    ensures forall i, j :: 0 <= i < j < |UniqueEverseen(s)| && UniqueEverseen(s)[i].Ok? ==>
              UniqueEverseen(s)[i] != UniqueEverseen(s)[j]
  {
    if s != [] {
      var init := s[..|s| - 1];
      var x := s[|s| - 1];
      assert s == init + [x];
      UniqueEverseenSets(init);
      var u := UniqueEverseen(init);
      OkSetSnoc(init, x);
      if !(x.Ok? && x.value in OkSet(init)) {
        var u' := u + [x];
        assert u'[..|u'| - 1] == u;
        OkSetSnoc(u, x);
        forall i, j | 0 <= i < j < |u'| && u'[i].Ok? ensures u'[i] != u'[j] {
          if j == |u| {
            assert u'[i] == u[i] && u[i] in u;
          } else {
            assert u'[i] == u[i] && u'[j] == u[j];
          }
        }
      }
    }
  }

  /** Position `i` of `s` survives `unique_everseen`: an exception, or an
      entity met there for the first time. */
  predicate KeptAt(s: seq<Result<TalonEntity>>, i: int)
    requires 0 <= i < |s|
  {
    s[i].Err? || forall j :: 0 <= j < i ==> s[j] != s[i]
  }

  /** The surviving positions of `s`, in increasing order. */
  function KeptIndices(s: seq<Result<TalonEntity>>): seq<int>
  {
    if s == [] then []
    else KeptIndices(s[..|s| - 1]) + (if KeptAt(s, |s| - 1) then [|s| - 1] else [])
  }

  lemma KeptAtLast(s: seq<Result<TalonEntity>>, x: Result<TalonEntity>)
    ensures KeptAt(s + [x], |s|) <==> !(x.Ok? && x.value in OkSet(s))
  {
    var t := s + [x];
    if x.Ok? && x.value in OkSet(s) {
      var y :| y in s && y.Ok? && y.value == x.value;
      var j :| 0 <= j < |s| && s[j] == y;
      assert t[j] == t[|s|];
    }
    if !KeptAt(t, |s|) {
      var j :| 0 <= j < |s| && t[j] == t[|s|];
      assert s[j] == x && s[j] in s;
    }
  }

  lemma KeptAtPrefix(s: seq<Result<TalonEntity>>, x: Result<TalonEntity>, i: int)
    requires 0 <= i < |s|
    ensures KeptAt(s + [x], i) <==> KeptAt(s, i)
  {
    assert forall j :: 0 <= j <= i ==> (s + [x])[j] == s[j];
  }

  /** `u` lists the elements of `s` at the increasing positions `ks`. */
  predicate IndexedBy(u: seq<Result<TalonEntity>>, s: seq<Result<TalonEntity>>, ks: seq<int>)
  {
    && |u| == |ks|
    && (forall k :: 0 <= k < |ks| ==> 0 <= ks[k] < |s| && u[k] == s[ks[k]])
    && (forall k, l :: 0 <= k < l < |ks| ==> ks[k] < ks[l])
  }

  lemma IndexedBySnoc(u: seq<Result<TalonEntity>>, s: seq<Result<TalonEntity>>, ks: seq<int>,
                      x: Result<TalonEntity>, keep: bool)
    requires IndexedBy(u, s, ks)
    ensures keep ==> IndexedBy(u + [x], s + [x], ks + [|s|])
    ensures !keep ==> IndexedBy(u, s + [x], ks)
  {
    assert forall k :: 0 <= k < |ks| ==> (s + [x])[ks[k]] == s[ks[k]];
  }

  lemma KeptIndicesSnoc(s: seq<Result<TalonEntity>>, x: Result<TalonEntity>)
    ensures KeptIndices(s + [x]) == KeptIndices(s) + (if KeptAt(s + [x], |s|) then [|s|] else [])
  {
    var t := s + [x];
    assert t[..|t| - 1] == s;
    assert KeptIndices(t) == KeptIndices(t[..|t| - 1]) + (if KeptAt(t, |t| - 1) then [|t| - 1] else []);
  }

  lemma {:induction false} KeptIndicesMembers(s: seq<Result<TalonEntity>>)
    ensures forall k :: 0 <= k < |KeptIndices(s)| ==> 0 <= KeptIndices(s)[k] < |s|
    ensures forall i :: 0 <= i < |s| ==> (i in KeptIndices(s) <==> KeptAt(s, i))
  {
    if s != [] {
      var init := s[..|s| - 1];
      var x := s[|s| - 1];
      assert s == init + [x];
      KeptIndicesMembers(init);
      KeptIndicesSnoc(init, x);
      forall i | 0 <= i < |init| ensures KeptAt(s, i) <==> KeptAt(init, i) {
        KeptAtPrefix(init, x, i);
      }
      assert |init| !in KeptIndices(init);
    }
  }

  lemma {:induction false} UniqueEverseenIndexed(s: seq<Result<TalonEntity>>)
    ensures IndexedBy(UniqueEverseen(s), s, KeptIndices(s))
  {
    if s != [] {
      var init := s[..|s| - 1];
      var x := s[|s| - 1];
      assert s == init + [x];
      UniqueEverseenIndexed(init);
      UniqueSnoc(init, x);
      KeptAtLast(init, x);
      KeptIndicesSnoc(init, x);
      IndexedBySnoc(UniqueEverseen(init), init, KeptIndices(init), x, KeptAt(s, |init|));
    }
  }

  /** `unique_everseen` keeps every exception in order, keeps every distinct
      entity, never yields the same entity twice, and yields exactly the
      exceptions and the first occurrence of each entity, in stream order. */
  lemma UniqueEverseenCharacterised(s: seq<Result<TalonEntity>>)
    ensures Errors(UniqueEverseen(s)) == Errors(s)
    ensures OkSet(UniqueEverseen(s)) == OkSet(s)
    ensures forall i, j :: 0 <= i < j < |UniqueEverseen(s)| && UniqueEverseen(s)[i].Ok? ==>
              UniqueEverseen(s)[i] != UniqueEverseen(s)[j]
    ensures |UniqueEverseen(s)| == |KeptIndices(s)|
    ensures forall k :: 0 <= k < |KeptIndices(s)| ==>
              0 <= KeptIndices(s)[k] < |s| && UniqueEverseen(s)[k] == s[KeptIndices(s)[k]]
    ensures forall k, l :: 0 <= k < l < |KeptIndices(s)| ==> KeptIndices(s)[k] < KeptIndices(s)[l]
    ensures forall i :: 0 <= i < |s| ==> (i in KeptIndices(s) <==> KeptAt(s, i))
  {
    UniqueEverseenSets(s);
    UniqueEverseenIndexed(s);
    KeptIndicesMembers(s);
  }

  /** What `tweets()` (`UserTweets`) or `likes()` (`FavoriteTweets`) yields
      for one element of the de-duplicated stream. */
  function Pick(kind: Kind, x: Result<TalonEntity>): seq<Result<Tweet>>
  {
    match x
    case Err(e) => [Err(e)]
    case Ok(IsTweet(t)) => if kind == UserTweets then [Ok(t)] else []
    case Ok(IsFavorite(t)) => if kind == FavoriteTweets then [Ok(t)] else []
  }

  function PickAll(kind: Kind, s: seq<Result<TalonEntity>>): seq<Result<Tweet>>
  {
    if s == [] then [] else PickAll(kind, s[..|s| - 1]) + Pick(kind, s[|s| - 1])
  }

  /** `tweets()` / `likes()` over the stream `_entities()` produced. */
  function SelectSpec(kind: Kind, entities: Run<Result<TalonEntity>>): Run<Result<Tweet>>
  {
    Run(PickAll(kind, UniqueEverseen(entities.items)), entities.failure)
  }

  lemma UniqueSnoc(s: seq<Result<TalonEntity>>, x: Result<TalonEntity>)
    ensures UniqueEverseen(s + [x])
         == if x.Ok? && x.value in OkSet(s) then UniqueEverseen(s) else UniqueEverseen(s) + [x]
  {
    assert (s + [x])[..|s|] == s;
  }

  lemma PickSnoc(kind: Kind, s: seq<Result<TalonEntity>>, x: Result<TalonEntity>)
    ensures PickAll(kind, s + [x]) == PickAll(kind, s) + Pick(kind, x)
  {
    assert (s + [x])[..|s|] == s;
  }

  lemma PickStep(kind: Kind, s: seq<Result<TalonEntity>>, i: int)
    requires 0 <= i < |s|
    ensures PickAll(kind, s[..i + 1]) == PickAll(kind, s[..i]) + Pick(kind, s[i])
  {
    assert s[..i + 1] == s[..i] + [s[i]];
    PickSnoc(kind, s[..i], s[i]);
  }

  lemma UniqueStep(s: seq<Result<TalonEntity>>, i: int)
    requires 0 <= i < |s|
    ensures OkSet(s[..i + 1]) == if s[i].Ok? then OkSet(s[..i]) + {s[i].value} else OkSet(s[..i])
    ensures UniqueEverseen(s[..i + 1])
         == if s[i].Ok? && s[i].value in OkSet(s[..i]) then UniqueEverseen(s[..i]) else UniqueEverseen(s[..i]) + [s[i]]
  {
    assert s[..i + 1] == s[..i] + [s[i]];
    OkSetSnoc(s[..i], s[i]);
    UniqueSnoc(s[..i], s[i]);
  }

  /** `unique_everseen(xs)`: a seen-set of the entities met so far. */
  method UniqueEverseenLoop(items: seq<Result<TalonEntity>>) returns (kept: seq<Result<TalonEntity>>)
    ensures kept == UniqueEverseen(items)
  {
    var seen: set<TalonEntity> := {};
    kept := [];
    var i := 0;
    while i < |items|
      invariant 0 <= i <= |items|
      invariant kept == UniqueEverseen(items[..i])
      invariant seen == OkSet(items[..i])
    {
      var x := items[i];
      UniqueStep(items, i);
      if x.Err? {
        kept := kept + [x];
      } else if x.value !in seen {
        seen := seen + {x.value};
        kept := kept + [x];
      }
      i := i + 1;
    }
    assert items[..i] == items;
  }

  /** The loop shared by `tweets()` and `likes()` over `unique_everseen`:
      exceptions are passed on, entities of the wanted kind unwrapped. */
  method Select(kind: Kind, entities: Run<Result<TalonEntity>>) returns (r: Run<Result<Tweet>>)
    ensures r == SelectSpec(kind, entities)
  {
    var kept := UniqueEverseenLoop(entities.items);
    var out: seq<Result<Tweet>> := [];
    var i := 0;
    while i < |kept|
      invariant 0 <= i <= |kept|
      invariant out == PickAll(kind, kept[..i])
    {
      var x := kept[i];
      PickStep(kind, kept, i);
      match x {
        case Err(e) => out := out + [Err(e)];
        case Ok(IsTweet(t)) =>
          if kind == UserTweets {
            out := out + [Ok(t)];
          }
        case Ok(IsFavorite(t)) =>
          if kind == FavoriteTweets {
            out := out + [Ok(t)];
          }
      }
      i := i + 1;
    }
    assert kept[..i] == kept;
    return Run(out, entities.failure);
  }

  /** `tweets()`. */
  method Tweets(entities: Run<Result<TalonEntity>>) returns (r: Run<Result<Tweet>>)
    ensures r == SelectSpec(UserTweets, entities)
  {
    r := Select(UserTweets, entities);
  }

  /** `likes()`. */
  method Likes(entities: Run<Result<TalonEntity>>) returns (r: Run<Result<Tweet>>)
    ensures r == SelectSpec(FavoriteTweets, entities)
  {
    r := Select(FavoriteTweets, entities);
  }

  lemma {:induction false} PickAllFacts(kind: Kind, s: seq<Result<TalonEntity>>)
    ensures forall e :: e in Errors(s) <==> Err(e) in PickAll(kind, s)
    ensures forall t :: Ok(t) in PickAll(kind, s) <==> Ok(Wrap(kind, t)) in s
  {
    if s != [] {
      var init := s[..|s| - 1];
      var x := s[|s| - 1];
      assert s == init + [x];
      PickAllFacts(kind, init);
      forall t ensures Ok(t) in PickAll(kind, s) <==> Ok(Wrap(kind, t)) in s {
        if Ok(Wrap(kind, t)) in s && Ok(Wrap(kind, t)) != x {
          assert Ok(Wrap(kind, t)) in init;
        }
      }
      forall e ensures e in Errors(s) <==> Err(e) in PickAll(kind, s) {
        if Err(e) in s && Err(e) != x {
          assert Err(e) in init;
        }
      }
    }
  }

  /** `tweets()` yields every exception of the entity stream and a tweet
      exactly when the stream holds it as a user tweet (favourites are
      dropped); `likes()` likewise for favourites. */
  lemma SelectCharacterised(kind: Kind, entities: Run<Result<TalonEntity>>)
    ensures SelectSpec(kind, entities).failure == entities.failure
    ensures forall e :: Err(e) in SelectSpec(kind, entities).items <==> e in Errors(entities.items)
    ensures forall t :: Ok(t) in SelectSpec(kind, entities).items <==> Ok(Wrap(kind, t)) in entities.items
  {
    var u := UniqueEverseen(entities.items);
    UniqueEverseenCharacterised(entities.items);
    PickAllFacts(kind, u);
    forall t ensures Ok(Wrap(kind, t)) in u <==> Ok(Wrap(kind, t)) in entities.items {
      assert Ok(Wrap(kind, t)) in u <==> Wrap(kind, t) in OkSet(u);
      assert Ok(Wrap(kind, t)) in entities.items <==> Wrap(kind, t) in OkSet(entities.items);
    }
    ErrorsMembership(u);
    ErrorsMembership(entities.items);
  }

  /** No entity in `s` occurs twice. */
  predicate NoRepeatedEntity<T(==)>(s: seq<Result<T>>)
  {
    forall i, j :: 0 <= i < j < |s| && s[i].Ok? ==> s[i] != s[j]
  }

  /** Selecting one kind from a stream without repeated entities repeats no
      tweet: the wrapper of a kind is one-to-one. */
  lemma {:induction false} PickAllNoRepeats(kind: Kind, s: seq<Result<TalonEntity>>)
    requires NoRepeatedEntity(s)
    ensures NoRepeatedEntity(PickAll(kind, s))
  {
    if s != [] {
      var init := s[..|s| - 1];
      var x := s[|s| - 1];
      assert s == init + [x];
      forall i, j | 0 <= i < j < |init| && init[i].Ok? ensures init[i] != init[j] {
        assert init[i] == s[i] && init[j] == s[j];
      }
      PickAllNoRepeats(kind, init);
      PickAllFacts(kind, init);
      var p := PickAll(kind, init);
      var r := PickAll(kind, s);
      assert r == p + Pick(kind, x);
      if x.Ok? && Pick(kind, x) != [] {
        var t := x.value.tweet;
        assert x == Ok(Wrap(kind, t)) && Pick(kind, x) == [Ok(t)];
        forall k | 0 <= k < |init| ensures init[k] != x {
          assert init[k] == s[k];
        }
        assert Ok(t) !in p;
      }
      forall i, j | 0 <= i < j < |r| && r[i].Ok? ensures r[i] != r[j] {
        if j < |p| {
          assert r[i] == p[i] && r[j] == p[j];
        } else {
          assert r[i] == p[i] && p[i] in p;
        }
      }
    }
  }

  /** `tweets()` never yields the same tweet twice, nor `likes()` the same
      like: `unique_everseen` drops every repeated entity. */
  lemma SelectNoRepeats(kind: Kind, entities: Run<Result<TalonEntity>>)
    ensures NoRepeatedEntity(SelectSpec(kind, entities).items)
  {
    UniqueEverseenCharacterised(entities.items);
    PickAllNoRepeats(kind, UniqueEverseen(entities.items));
  }

  lemma {:induction false} ErrorsMembership(s: seq<Result<TalonEntity>>)
    ensures forall e :: e in Errors(s) <==> Err(e) in s
  {
    if s != [] {
      var init := s[..|s| - 1];
      assert s == init + [s[|s| - 1]];
      ErrorsMembership(init);
    }
  }

  /** An unknown file contributes exactly one RuntimeError and nothing else. */
  lemma UnknownFileYieldsOneError(f: Path, connect: Path -> Result<Database>)
    requires Name(f) != "user_tweets.db" && Name(f) != "favorite_tweets.db"
    ensures |ProcessOne(f, connect).items| == 1
    ensures ProcessOne(f, connect).items[0].Err? && ProcessOne(f, connect).items[0].error.kind == RuntimeError
    ensures ProcessOne(f, connect).failure.None?
  {
  }
}
