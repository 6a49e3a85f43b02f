/** Opening possibly compressed files: the file-name suffixes that mark a
    compressed file, the choice of reader `kopen` makes from the suffix,
    the keyword arguments each reader is handed, the checks `kopen` makes
    itself, and `kexists`. The decompressors and the file system stand
    behind the `Io` parameter. */
module Kompress {
  import opened Streams
  import opened Text
  import opened Paths

  // The suffixes of class `Ext`.
  const Xz := ".xz"
  const Zip := ".zip"
  const Lz4 := ".lz4"
  const Zstd := ".zstd"
  const TarGz := ".tar.gz"

  const Suffixes: set<string> := {Xz, Zip, Lz4, Zstd, TarGz}

  /** `is_compressed(p)`: the name of `p` ends with one of the suffixes. */
  predicate IsCompressed(p: Path)
  {
    exists ext | ext in Suffixes :: EndsWith(Name(p), ext)
  }

  /** The branch `kopen` takes. */
  datatype Reader = Lzma | ZipMember | Lz4Frame | ZstdStream | TarMember | PlainFile

  /** The suffix a compressed branch is chosen for. */
  function SuffixOf(r: Reader): string
    requires r != PlainFile
  {
    match r
    case Lzma => Xz
    case ZipMember => Zip
    case Lz4Frame => Lz4
    case ZstdStream => Zstd
    case TarMember => TarGz
  }

  /** The `if`/`elif` chain of `kopen` on `pp.name`: the first suffix, in
      the order xz, zip, lz4, zstd, tar.gz, that the name ends with picks
      the reader; a plain `open` otherwise. */
  function ReaderFor(name: string): (r: Reader)
    ensures r != PlainFile ==> EndsWith(name, SuffixOf(r))
    ensures r == PlainFile <==> forall ext | ext in Suffixes :: !EndsWith(name, ext)
  {
    if EndsWith(name, Xz) then Lzma
    else if EndsWith(name, Zip) then ZipMember
    else if EndsWith(name, Lz4) then Lz4Frame
    else if EndsWith(name, Zstd) then ZstdStream
    else if EndsWith(name, TarGz) then TarMember
    else PlainFile
  }

  /** The last two characters of a name that ends with `ext`. */
  lemma EndsWithLastTwo(name: string, ext: string)
    requires |ext| >= 2 && EndsWith(name, ext)
    ensures name[|name| - 1] == ext[|ext| - 1] && name[|name| - 2] == ext[|ext| - 2]
  {
    assert name[|name| - |ext|..][|ext| - 1] == name[|name| - 1];
    assert name[|name| - |ext|..][|ext| - 2] == name[|name| - 2];
  }

  /** A name ends with at most one of the suffixes, so the order of the
      `elif` chain never decides between two of them: no two suffixes
      share their last two characters. */
  lemma SuffixesExclusive(name: string, a: string, b: string)
    requires a in Suffixes && b in Suffixes
    requires EndsWith(name, a) && EndsWith(name, b)
    ensures a == b
  {
    EndsWithLastTwo(name, a);
    EndsWithLastTwo(name, b);
  }

  /** The reader chosen is the one for the unique suffix the name ends with. */
  lemma ReaderForSuffix(name: string, ext: string)
    requires ext in Suffixes && EndsWith(name, ext)
    ensures ReaderFor(name) != PlainFile && SuffixOf(ReaderFor(name)) == ext
  {
    var r := ReaderFor(name);
    SuffixesExclusive(name, SuffixOf(r), ext);
  }

  /** `kopen` decompresses exactly the paths `is_compressed` reports. */
  lemma {:induction false} CompressedIffNotPlain(p: Path)
    ensures IsCompressed(p) <==> ReaderFor(Name(p)) != PlainFile
  {
    if ReaderFor(Name(p)) != PlainFile {
      assert SuffixOf(ReaderFor(Name(p))) in Suffixes;
    }
  }

  /** Only the last component counts: moving a file to another directory
      changes neither the answer of `is_compressed` nor the reader. */
  lemma {:induction false} OnlyNameMatters(dir: Path, other: Path, name: string)
    ensures IsCompressed(dir + [name]) <==> IsCompressed(other + [name])
    ensures ReaderFor(Name(dir + [name])) == ReaderFor(Name(other + [name]))
  {
    assert Name(dir + [name]) == name == Name(other + [name]);
  }

  /** A few names and the branch they take. */
  lemma ReaderExamples()
    ensures ReaderFor("export.tar.gz") == TarMember
    ensures ReaderFor("db.sqlite.xz") == Lzma
    ensures ReaderFor("takeout.zip") == ZipMember
    ensures ReaderFor("notes.gz") == PlainFile
  {
    assert "export.tar.gz"[6..] == TarGz;
    assert "db.sqlite.xz"[9..] == Xz;
    assert "takeout.zip"[7..] == Zip;
    var n := "notes.gz";
    assert n[5..] != Xz && n[4..] != Zip && n[4..] != Lz4 && n[3..] != Zstd && n[1..] != TarGz;
  }

  type Kwargs = map<string, string>

  /** `kwargs.get('encoding', 'utf8')`. */
  function EncodingOf(kwargs: Kwargs): string
  {
    if "encoding" in kwargs then kwargs["encoding"] else "utf8"
  }

  /** `kwargs['encoding'] = kwargs.get('encoding', 'utf8')`: the keyword
      arguments with the encoding filled in. */
  function WithEncoding(kwargs: Kwargs): (r: Kwargs)
    ensures "encoding" in r
    ensures "encoding" in kwargs ==> r["encoding"] == kwargs["encoding"]
    ensures "encoding" !in kwargs ==> r["encoding"] == "utf8"
    ensures r.Keys == kwargs.Keys + {"encoding"}
    ensures forall k | k in kwargs && k != "encoding" :: r[k] == kwargs[k]
  {
    kwargs["encoding" := EncodingOf(kwargs)]
  }

  /** Filling in the default twice changes nothing more. */
  lemma WithEncodingIdempotent(kwargs: Kwargs)
    ensures WithEncoding(WithEncoding(kwargs)) == WithEncoding(kwargs)
  {
  }

  /** A library call `kopen` makes to obtain its stream: the reader, the
      path, the mode, the extra positional and the keyword arguments. */
  datatype Call = Call(reader: Reader, path: Path, mode: string, args: seq<string>, kwargs: Kwargs)

  /** What the file system and the decompressors do: whether opening the
      archive itself (`ZipFile(pp)`, `tarfile.open(pp)`) raises, whether a
      library call raises, and whether `extractfile` finds a regular file
      (it returns `None` otherwise). */
  datatype Io = Io(
    archive: (Reader, Path) -> Option<Error>,
    open: Call -> Option<Error>,
    tarFile: (Path, seq<string>) -> bool)

  const TooFewValues := "not enough values to unpack (expected 1, got 0)"
  const TooManyValues := "too many values to unpack (expected 1)"

  /** The error of unpacking `args` into the single target `[subpath]`. */
  function UnpackError(n: nat): Error
    requires n != 1
  {
    if n == 0 then Error(ValueError, TooFewValues)
    else Error(ValueError, TooManyValues)
  }

  /** The stream of a library call, or what it raised. */
  function Attempt(io: Io, c: Call): Result<Call>
  {
    if io.open(c).Some? then Err(io.open(c).value) else Ok(c)
  }

  const KeywordOnlyMessage := "open() takes from 1 to 2 positional arguments"
  const DuplicateEncodingMessage := "open() got multiple values for argument 'encoding'"
  const BufferingMessage := "'str' object cannot be interpreted as an integer"

  /** The TypeError Python raises when binding the extra positional
      arguments (strings) of a reader that takes none: `lzma.open` has only
      keyword parameters after `mode`; `lz4.frame.open` binds the first to
      `encoding`, which the keyword arguments always hold; a plain `open`
      binds it to the integer `buffering`. */
  function PositionalError(r: Reader, args: seq<string>): Option<Error>
  {
    if args == [] then None
    else match r
      case Lzma => Some(Error(TypeError, KeywordOnlyMessage))
      case Lz4Frame => Some(Error(TypeError, DuplicateEncodingMessage))
      case PlainFile => Some(Error(TypeError, BufferingMessage))
      case _ => None
  }

  /** `kopen(path, *args, mode=mode, **kwargs)`: the call that produced the
      returned stream, or the exception.  xz, lz4 and plain files refuse
      extra positional arguments and otherwise pass the mode and the
      keyword arguments with the encoding filled in; xz further needs a
      text mode (`lzma.open` returns a text stream exactly then, and the
      code asserts it did).  zstd opens the file in binary and drops the
      positional arguments.  zip opens the archive, then unpacks exactly
      one subpath and passes only the encoding; tar opens the archive,
      passes neither mode nor encoding, and asserts that a regular file
      was found. */
  function Kopen(path: Path, args: seq<string>, mode: string, kwargs: Kwargs, io: Io): (r: Result<Call>)
    ensures r.Ok? ==> r.value.reader == ReaderFor(Name(path)) && r.value.path == path
    ensures r.Ok? ==> io.open(r.value).None?
    ensures r.Ok? && r.value.reader != TarMember ==>
              "encoding" in r.value.kwargs && r.value.kwargs["encoding"] == EncodingOf(kwargs)
    ensures ReaderFor(Name(path)) in {Lzma, Lz4Frame, PlainFile} && args != [] ==>
              r.Err? && r.error.kind == TypeError
    ensures ReaderFor(Name(path)) == Lzma ==>
              (r.Ok? <==> args == [] && io.open(Call(Lzma, path, mode, [], WithEncoding(kwargs))).None? && 't' in mode)
    ensures ReaderFor(Name(path)) in {Lz4Frame, PlainFile} ==>
              (r.Ok? <==> args == [] && io.open(Call(ReaderFor(Name(path)), path, mode, [], WithEncoding(kwargs))).None?)
    ensures ReaderFor(Name(path)) in {Lzma, Lz4Frame, PlainFile} && r.Ok? ==>
              r.value == Call(ReaderFor(Name(path)), path, mode, [], WithEncoding(kwargs))
    ensures ReaderFor(Name(path)) == ZstdStream ==>
              (r.Ok? <==> io.open(Call(ZstdStream, path, "rb", [], WithEncoding(kwargs))).None?)
    ensures ReaderFor(Name(path)) == ZipMember ==>
              (r.Ok? <==> io.archive(ZipMember, path).None? && |args| == 1
                          && io.open(Call(ZipMember, path, "r", args, map["encoding" := EncodingOf(kwargs)])).None?)
    ensures ReaderFor(Name(path)) == ZipMember && io.archive(ZipMember, path).None? && |args| != 1 ==>
              r == Err(UnpackError(|args|))
    ensures ReaderFor(Name(path)) == TarMember ==>
              (r.Ok? <==> io.archive(TarMember, path).None? && io.open(Call(TarMember, path, "r", args, map[])).None?
                          && io.tarFile(path, args))
    ensures ReaderFor(Name(path)) in {ZipMember, TarMember} && io.archive(ReaderFor(Name(path)), path).Some? ==>
              r == Err(io.archive(ReaderFor(Name(path)), path).value)
  {
    var kw := WithEncoding(kwargs);
    var reader := ReaderFor(Name(path));
    if PositionalError(reader, args).Some? then Err(PositionalError(reader, args).value)
    else match reader
      case Lzma =>
        var c := Call(Lzma, path, mode, args, kw);
        if io.open(c).Some? then Err(io.open(c).value)
        else if 't' !in mode then Err(Error(AssertionError, "<lzma.LZMAFile>"))
        else Ok(c)
      case ZipMember =>
        if io.archive(ZipMember, path).Some? then Err(io.archive(ZipMember, path).value)
        else if |args| != 1 then Err(UnpackError(|args|))
        else Attempt(io, Call(ZipMember, path, "r", args, map["encoding" := EncodingOf(kwargs)]))
      case Lz4Frame => Attempt(io, Call(Lz4Frame, path, mode, args, kw))
      case ZstdStream => Attempt(io, Call(ZstdStream, path, "rb", [], kw))
      case TarMember =>
        if io.archive(TarMember, path).Some? then Err(io.archive(TarMember, path).value)
        else
          var c := Call(TarMember, path, "r", args, map[]);
          if io.open(c).Some? then Err(io.open(c).value)
          else if !io.tarFile(path, args) then Err(Error(AssertionError, ""))
          else Ok(c)
      case PlainFile => Attempt(io, Call(PlainFile, path, mode, args, kw))
  }

  /** `kexists(path, subpath)`: `kopen(path, subpath)` returns instead of
      raising. */
  function Kexists(path: Path, subpath: string, io: Io): (r: bool)
    ensures r <==> Kopen(path, [subpath], "rt", map[], io).Ok?
  {
    match Kopen(path, [subpath], "rt", map[], io)
    case Ok(_) => true
    case Err(_) => false
  }

  /** For a zip archive, `kexists` asks exactly whether the archive and the
      member open: its single subpath never trips the unpacking. */
  lemma KexistsZip(path: Path, subpath: string, io: Io)
    requires ReaderFor(Name(path)) == ZipMember
    ensures Kexists(path, subpath, io) <==>
              io.archive(ZipMember, path).None?
              && io.open(Call(ZipMember, path, "r", [subpath], map["encoding" := "utf8"])).None?
  {
  }

  /** For a `.tar.gz` file, `kexists` asks whether the archive opens and
      names a regular file at the subpath. */
  lemma KexistsTar(path: Path, subpath: string, io: Io)
    requires ReaderFor(Name(path)) == TarMember
    ensures Kexists(path, subpath, io) <==>
              io.archive(TarMember, path).None?
              && io.open(Call(TarMember, path, "r", [subpath], map[])).None?
              && io.tarFile(path, [subpath])
  {
  }

  /** For a `.zstd` file, `kexists` asks whether the binary open of the
      file succeeds: the subpath is dropped. */
  lemma KexistsZstd(path: Path, subpath: string, io: Io)
    requires ReaderFor(Name(path)) == ZstdStream
    ensures Kexists(path, subpath, io) <==>
              io.open(Call(ZstdStream, path, "rb", [], map["encoding" := "utf8"])).None?
  {
  }

  /** For an uncompressed, `.xz` or `.lz4` file `kexists` is always false:
      the subpath it passes positionally is refused with a TypeError before
      any file is opened. */
  lemma KexistsNeverPositional(path: Path, subpath: string, io: Io)
    requires !IsCompressed(path) || ReaderFor(Name(path)) in {Lzma, Lz4Frame}
    ensures !Kexists(path, subpath, io)
    ensures Kopen(path, [subpath], "rt", map[], io).Err?
    ensures Kopen(path, [subpath], "rt", map[], io).error.kind == TypeError
  {
    CompressedIffNotPlain(path);
  }
}
