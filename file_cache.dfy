/**
 * The file-based result cache (FileCacheManager.java, with the upload
 * overloads and the pipe suffix rule of BaseCacheManager.java). The file
 * system is a map from path to contents; directories are implicit in the
 * paths.
 */
module FileCache {
  import opened Wrappers
  import opened JavaStrings
  import opened Requests

  const PERSISTENT_SEGMENT: string := "persistent/"
  const TEMPORARY_SEGMENT: string := "cache/"
  /** The suffix of the name an upload is written under before it is renamed into place. */
  const HIDE_SUFFIX: string := ".hide"
  const DEFAULT_URL_PREFIX: string := "http://localhost/service/report/"
  const DEFAULT_SUFFIX: string := "csv"

  type Files = map<string, seq<byte>>

  predicate EndsWithSlash(s: string)
  {
    |s| > 0 && s[|s| - 1] == '/'
  }

  /** `NameUtils.ensureLastSlash`: the string itself if it ends in `/`, and otherwise with `/` appended. */
  function EnsureLastSlash(s: string): (r: string)
    ensures EndsWithSlash(r)
    ensures StartsWith(r, s) && |r| <= |s| + 1
    ensures EndsWithSlash(s) ==> r == s
  {
    if EndsWithSlash(s) then s else s + "/"
  }

  lemma EnsureLastSlashIdempotent(s: string)
    ensures EnsureLastSlash(EnsureLastSlash(s)) == EnsureLastSlash(s)
  {
  }

  /** getFileName: the cache directory, the segment for the stickiness, then `key.suffix`. */
  function FileName(dir: string, key: string, suffix: string, sticky: bool): string
  {
    dir + (if sticky then PERSISTENT_SEGMENT else TEMPORARY_SEGMENT) + key + "." + suffix
  }

  /** The directory of one segment. */
  function SegmentDir(dir: string, sticky: bool): string
  {
    dir + if sticky then PERSISTENT_SEGMENT else TEMPORARY_SEGMENT
  }

  /** A file name lies in its segment's directory, and the two segments never share a name. */
  lemma FileNameInSegment(dir: string, key: string, suffix: string, sticky: bool)
    ensures StartsWith(FileName(dir, key, suffix, sticky), SegmentDir(dir, sticky))
    ensures !StartsWith(FileName(dir, key, suffix, sticky), SegmentDir(dir, !sticky))
    ensures FileName(dir, key, suffix, true) != FileName(dir, key, suffix, false)
  {
    var f := FileName(dir, key, suffix, sticky);
    var g := FileName(dir, key, suffix, !sticky);
    assert f == SegmentDir(dir, sticky) + (key + "." + suffix);
    assert f[|dir|] == if sticky then 'p' else 'c';
    assert g[|dir|] == if sticky then 'c' else 'p';
    assert SegmentDir(dir, !sticky)[|dir|] == g[|dir|];
  }

  /** findFileFor: the persistent file if it exists, else the temporary one if it exists. */
  function Lookup(files: Files, dir: string, key: string, suffix: string): (r: Option<string>)
    ensures r.Some? ==> r.value in files
    ensures r.None? <==> FileName(dir, key, suffix, true) !in files && FileName(dir, key, suffix, false) !in files
    ensures FileName(dir, key, suffix, true) in files ==> r == Some(FileName(dir, key, suffix, true))
    ensures FileName(dir, key, suffix, true) !in files ==> r.None? || r == Some(FileName(dir, key, suffix, false))
  {
    var persistent := FileName(dir, key, suffix, true);
    var temporary := FileName(dir, key, suffix, false);
    if persistent in files then Some(persistent)
    else if temporary in files then Some(temporary)
    else None
  }

  /** `File.renameTo`: the source's contents move to the target name, replacing any file there; no source, no change. */
  function Rename(files: Files, from: string, to: string): Files
  {
    if from in files then (files - {from})[to := files[from]] else files
  }

  /** The file system after upload: the data written under `fname + ".hide"` and renamed to `fname`. */
  function Publish(files: Files, fname: string, data: seq<byte>): Files
  {
    var temp := fname + HIDE_SUFFIX;
    Rename(files[temp := data], temp, fname)
  }

  /** After publishing, `fname` holds the data, the temporary name is gone, and no other file changed. */
  lemma PublishSpec(files: Files, fname: string, data: seq<byte>)
    ensures var r := Publish(files, fname, data);
      && fname in r && r[fname] == data
      && fname + HIDE_SUFFIX !in r
      && forall n :: n != fname && n != fname + HIDE_SUFFIX ==>
           (n in r <==> n in files) && (n in r ==> r[n] == files[n])
  {
    assert |fname + HIDE_SUFFIX| > |fname|;
  }

  /**
   * An upload is found by the lookup for its key and suffix: a sticky upload
   * always, a non-sticky one unless a persistent file of that name shadows it.
   */
  lemma LookupAfterPublish(files: Files, dir: string, key: string, suffix: string, sticky: bool, data: seq<byte>)
    ensures var fname := FileName(dir, key, suffix, sticky);
      var r := Publish(files, fname, data);
      var persistent := FileName(dir, key, suffix, true);
      && (sticky ==> Lookup(r, dir, key, suffix) == Some(fname))
      && (!sticky && persistent !in files ==> Lookup(r, dir, key, suffix) == Some(fname))
      && (!sticky && persistent in files ==> Lookup(r, dir, key, suffix) == Some(persistent) && r[persistent] == files[persistent])
  {
    var fname := FileName(dir, key, suffix, sticky);
    PublishSpec(files, fname, data);
    FileNameInSegment(dir, key, suffix, sticky);
    var persistent := FileName(dir, key, suffix, true);
    if !sticky {
      assert persistent != fname + HIDE_SUFFIX by {
        assert fname + HIDE_SUFFIX == FileName(dir, key, suffix + HIDE_SUFFIX, false);
        FileNameInSegment(dir, key, suffix + HIDE_SUFFIX, false);
        FileNameInSegment(dir, key, suffix, true);
      }
    }
  }

  /** `clear(dir)`: delete the directory tree and make it again, empty. */
  function ClearDir(files: Files, dir: string): (r: Files)
    ensures forall n :: n in r <==> n in files && !StartsWith(n, dir)
    ensures forall n :: n in r ==> r[n] == files[n]
  {
    map n | n in files && !StartsWith(n, dir) :: files[n]
  }

  /** `Pipe` construction: a compressed upload is stored under the suffix with `.gz` added. */
  function PipeSuffix(suffix: string, compress: bool): (r: string)
    ensures compress ==> r == suffix + ".gz"
    ensures !compress ==> r == suffix
  {
    if compress then suffix + ".gz" else suffix
  }

  class FileCacheManager {
    /** The cache directory; None until setCacheDir, when Java's `null + s` spells it "null". */
    var cacheDir: Option<string>
    var urlPrefix: string
    var defaultSuffix: string
    /** The file system under the cache directory. */
    var files: Files

    /** Both prefixes that the setters normalise end in `/`. */
    predicate Valid()
      reads this
    {
      EndsWithSlash(urlPrefix) && (cacheDir.Some? ==> EndsWithSlash(cacheDir.value))
    }

    /** The text string concatenation gives the cache directory. */
    function Dir(): string
      reads this
    {
      if cacheDir.Some? then cacheDir.value else "null"
    }

    constructor (files: Files)
      ensures cacheDir == None && urlPrefix == DEFAULT_URL_PREFIX && defaultSuffix == DEFAULT_SUFFIX
      ensures this.files == files
      ensures Valid()
    {
      cacheDir := None;
      urlPrefix := DEFAULT_URL_PREFIX;
      defaultSuffix := DEFAULT_SUFFIX;
      this.files := files;
    }

    /** setCacheDir, given the location after expandFileLocation: stored with a trailing `/`. */
    method SetCacheDir(location: string)
      requires Valid()
      modifies this`cacheDir
      ensures Valid()
      ensures cacheDir == Some(EnsureLastSlash(location))
    {
      cacheDir := Some(EnsureLastSlash(location));
    }

    method SetUrlPrefix(prefix: string)
      requires Valid()
      modifies this`urlPrefix
      ensures Valid()
      ensures urlPrefix == EnsureLastSlash(prefix)
    {
      urlPrefix := EnsureLastSlash(prefix);
    }

    method SetDefaultSuffix(suffix: string)
      modifies this`defaultSuffix
      ensures defaultSuffix == suffix
    {
      defaultSuffix := suffix;
    }

    /** getResultURL(key): the URL prefix, the key and the default suffix, whether or not a result exists. */
    function ResultURL(key: string): (url: string)
      reads this
      ensures StartsWith(url, urlPrefix) && url == urlPrefix + key + "." + defaultSuffix
    {
      urlPrefix + key + "." + defaultSuffix
    }

    /** getResultURL(request): the URL for the request's key (which getKey memoises). */
    method GetResultURL(request: BatchRequest) returns (url: string)
      modifies request`key
      ensures url == ResultURL(old(request.Key()))
      ensures request.Key() == old(request.Key()) && request.key.Some?
      ensures old(request.Valid()) ==> request.Valid()
    {
      var k := request.GetKey();
      url := ResultURL(k);
    }

    /** isReady: a default-suffix result exists in either segment. */
    function IsReady(key: string): (ready: bool)
      reads this
      ensures ready <==> FileName(Dir(), key, defaultSuffix, true) in files || FileName(Dir(), key, defaultSuffix, false) in files
    {
      Lookup(files, Dir(), key, defaultSuffix).Some?
    }

    /** readResult(key, suffix): the contents of the file lookup finds, or None (null) when there is none. */
    function ReadResult(key: string, suffix: string): (r: Option<seq<byte>>)
      reads this
      ensures r.None? <==> Lookup(files, Dir(), key, suffix).None?
      ensures r.Some? ==> r.value == files[Lookup(files, Dir(), key, suffix).value]
    {
      match Lookup(files, Dir(), key, suffix)
      case None => None
      case Some(f) => Some(files[f])
    }

    /** readResult(key): the default-suffix result. */
    function ReadDefaultResult(key: string): (r: Option<seq<byte>>)
      reads this
      ensures r == ReadResult(key, defaultSuffix)
      ensures r.Some? <==> IsReady(key)
    {
      ReadResult(key, defaultSuffix)
    }

    /**
     * upload(request, suffix, result): write the bytes to the file name plus
     * `.hide`, then rename that into place so the result appears at once.
     */
    method Upload(request: BatchRequest, suffix: string, data: seq<byte>)
      modifies this`files, request`key
      ensures files == Publish(old(files), FileName(Dir(), old(request.Key()), suffix, request.sticky), data)
      ensures request.Key() == old(request.Key()) && request.key.Some?
      ensures old(request.Valid()) ==> request.Valid()
    {
      var k := request.GetKey();
      var fname := FileName(Dir(), k, suffix, request.sticky);
      var tempfname := fname + HIDE_SUFFIX;
      files := files[tempfname := data];
      files := Rename(files, tempfname, fname);
    }

    /** upload(request, file): the default suffix. */
    method UploadFile(request: BatchRequest, data: seq<byte>)
      modifies this`files, request`key
      ensures files == Publish(old(files), FileName(Dir(), old(request.Key()), defaultSuffix, request.sticky), data)
      ensures request.Key() == old(request.Key()) && request.key.Some?
    {
      Upload(request, defaultSuffix, data);
    }

    /**
     * upload(request, suffix, compress) once the pipe's thread has finished:
     * `sunk` is what reached the pipe's sink (compressed by the producer's
     * GZIP stream when `compress`), stored under the pipe's suffix.
     */
    method UploadThroughPipe(request: BatchRequest, suffix: string, compress: bool, sunk: seq<byte>)
      modifies this`files, request`key
      ensures files == Publish(old(files), FileName(Dir(), old(request.Key()), PipeSuffix(suffix, compress), request.sticky), sunk)
      ensures request.Key() == old(request.Key()) && request.key.Some?
    {
      Upload(request, PipeSuffix(suffix, compress), sunk);
    }

    /** upload(request): a pipe with the default suffix and no compression. */
    method UploadThroughDefaultPipe(request: BatchRequest, sunk: seq<byte>)
      modifies this`files, request`key
      ensures files == Publish(old(files), FileName(Dir(), old(request.Key()), defaultSuffix, request.sticky), sunk)
      ensures request.Key() == old(request.Key()) && request.key.Some?
    {
      UploadThroughPipe(request, defaultSuffix, false, sunk);
    }

    /** clear: empty both segments. */
    method Clear()
      modifies this`files
      ensures files == ClearDir(ClearDir(old(files), Dir() + PERSISTENT_SEGMENT), Dir() + TEMPORARY_SEGMENT)
    {
      files := ClearDir(files, Dir() + PERSISTENT_SEGMENT);
      files := ClearDir(files, Dir() + TEMPORARY_SEGMENT);
    }

    /** clearNonSticky: empty the temporary segment only. */
    method ClearNonSticky()
      modifies this`files
      ensures files == ClearDir(old(files), Dir() + TEMPORARY_SEGMENT)
    {
      files := ClearDir(files, Dir() + TEMPORARY_SEGMENT);
    }
  }

  /** After clear, no result is ready; after clearNonSticky, exactly the persistent results still are. */
  lemma ClearSemantics(files: Files, dir: string, key: string, suffix: string)
    ensures Lookup(ClearDir(ClearDir(files, dir + PERSISTENT_SEGMENT), dir + TEMPORARY_SEGMENT), dir, key, suffix).None?
    ensures Lookup(ClearDir(files, dir + TEMPORARY_SEGMENT), dir, key, suffix) ==
      if FileName(dir, key, suffix, true) in files then Some(FileName(dir, key, suffix, true)) else None
  {
    FileNameInSegment(dir, key, suffix, true);
    FileNameInSegment(dir, key, suffix, false);
  }
}
