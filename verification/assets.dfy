/** The asset callback `BasicSpider.download_file`: content-addressed
    deduplication.  The digest function (SHA-256 hex in the program) is
    a parameter, and so is whether the file write succeeds; the digest
    is recorded before the write is attempted, so a failed write still
    consumes it. */
module Assets {
  import opened Text
  import opened Urls
  import opened Crawl

  newtype byte = x: int | 0 <= x < 256

  type Bytes = seq<byte>

  /** A downloaded asset: its URL, its body, and whether writing it to
      the asset directory succeeds. */
  datatype AssetResponse = AssetResponse(url: string, body: Bytes, writeOk: bool)

  datatype DownloadOutcome = DuplicateSkipped | Stored(filename: string) | WriteFailed(filename: string)

  /** One file written to the asset directory. */
  datatype AssetWrite = AssetWrite(filename: string, body: Bytes)

  /** `os.path.basename(urlparse(url).path)`. */
  function AssetFilename(url: string): (name: string)
    ensures '/' !in name
  {
    Basename(PathOf(url))
  }

  /** A basename that opens a file rather than a directory: not "",
      "." or "..". */
  predicate NamesAFile(name: string) {
    |name| > 0 && !(name[0] == '.' && (|name| == 1 || (|name| == 2 && name[1] == '.')))
  }

  /** `NamesAFile` excludes exactly the three directory names. */
  lemma NamesAFileExcludesDirectories(name: string)
    ensures NamesAFile(name) <==> name !in {"", ".", ".."}
  {
    if |name| == 1 && name[0] == '.' { assert name == "."; }
    if |name| == 2 && name[0] == '.' && name[1] == '.' { assert name == ".."; }
  }

  /** `download_file`: skip a body whose digest is known; otherwise
      record the digest, then write the body under the URL's basename.
      A URL whose path ends in '/' has an empty basename, and one ending
      in "/." or "/.." has "." or "..": the path opened is then a
      directory, and the write always fails (`IsADirectoryError`, which
      nothing catches). */
  function DownloadFile(s: SpiderState, digest: Bytes -> string, r: AssetResponse)
    : (out: (SpiderState, DownloadOutcome))
    ensures out.0 == s.(assetHashes := s.assetHashes + {digest(r.body)})
    ensures out.1.DuplicateSkipped? <==> digest(r.body) in s.assetHashes
    ensures out.1.Stored? <==> digest(r.body) !in s.assetHashes && r.writeOk && NamesAFile(AssetFilename(r.url))
    ensures !out.1.DuplicateSkipped? ==> out.1.filename == AssetFilename(r.url)
  {
    var h := digest(r.body);
    if h in s.assetHashes then (s, DuplicateSkipped)
    else
      var name := AssetFilename(r.url);
      (s.(assetHashes := s.assetHashes + {h}), if r.writeOk && NamesAFile(name) then Stored(name) else WriteFailed(name))
  }

  function Digests(digest: Bytes -> string, rs: seq<AssetResponse>): set<string> {
    set i | 0 <= i < |rs| :: digest(rs[i].body)
  }

  /** Asset responses handled one after the other; the result carries
      the files actually written, in order. */
  function DownloadAll(s: SpiderState, digest: Bytes -> string, rs: seq<AssetResponse>)
    : (out: (SpiderState, seq<AssetWrite>))
    decreases |rs|
  {
    if |rs| == 0 then (s, [])
    else
      var step := DownloadFile(s, digest, rs[0]);
      var rest := DownloadAll(step.0, digest, rs[1..]);
      (rest.0, (if step.1.Stored? then [AssetWrite(step.1.filename, rs[0].body)] else []) + rest.1)
  }

  /** One step of `DownloadAll`: the first response's write, if any,
      then the writes of the rest. */
  lemma DownloadAllCons(s: SpiderState, digest: Bytes -> string, rs: seq<AssetResponse>)
    requires |rs| > 0
    ensures var step := DownloadFile(s, digest, rs[0]);
            DownloadAll(s, digest, rs).1
            == (if step.1.Stored? then [AssetWrite(step.1.filename, rs[0].body)] else [])
               + DownloadAll(step.0, digest, rs[1..]).1
  {
  }

  lemma DigestsCons(digest: Bytes -> string, rs: seq<AssetResponse>)
    requires |rs| > 0
    ensures Digests(digest, rs) == {digest(rs[0].body)} + Digests(digest, rs[1..])
  {
    forall h | h in Digests(digest, rs) ensures h in {digest(rs[0].body)} + Digests(digest, rs[1..]) {
      var i :| 0 <= i < |rs| && h == digest(rs[i].body);
      if i > 0 { assert rs[1..][i - 1] == rs[i]; }
    }
    forall h | h in Digests(digest, rs[1..]) ensures h in Digests(digest, rs) {
      var i :| 0 <= i < |rs[1..]| && h == digest(rs[1..][i].body);
      assert rs[1..][i] == rs[i + 1];
    }
  }

  /** Every digest seen ends up recorded, whether or not its write
      succeeded, and nothing else in the spider state changes. */
  lemma {:induction false} DownloadAllRecordsEveryDigest(s: SpiderState, digest: Bytes -> string, rs: seq<AssetResponse>)
    ensures DownloadAll(s, digest, rs).0 == s.(assetHashes := s.assetHashes + Digests(digest, rs))
    decreases |rs|
  {
    if |rs| > 0 {
      var step := DownloadFile(s, digest, rs[0]);
      DownloadAllRecordsEveryDigest(step.0, digest, rs[1..]);
      DigestsCons(digest, rs);
    } else {
      assert Digests(digest, rs) == {};
    }
  }

  /** Every write carries a digest from `allowed`. */
  predicate DigestsWithin(digest: Bytes -> string, ws: seq<AssetWrite>, allowed: set<string>) {
    forall i :: 0 <= i < |ws| ==> digest(ws[i].body) in allowed
  }

  /** No two writes carry the same digest. */
  predicate DigestsDistinct(digest: Bytes -> string, ws: seq<AssetWrite>) {
    forall i, j :: 0 <= i < j < |ws| ==> digest(ws[i].body) != digest(ws[j].body)
  }

  /** The digests still allowed after the first response are among
      those allowed before it. */
  lemma AllowedShrinks(digest: Bytes -> string, rs: seq<AssetResponse>, known: set<string>)
    requires |rs| > 0
    ensures Digests(digest, rs[1..]) - (known + {digest(rs[0].body)}) <= Digests(digest, rs) - known
  {
    DigestsCons(digest, rs);
  }

  lemma WithinWiden(digest: Bytes -> string, ws: seq<AssetWrite>, small: set<string>, large: set<string>)
    requires DigestsWithin(digest, ws, small) && small <= large
    ensures DigestsWithin(digest, ws, large)
  {
  }

  lemma WithinPrepend(digest: Bytes -> string, first: seq<AssetWrite>, rest: seq<AssetWrite>, allowed: set<string>)
    requires forall i :: 0 <= i < |first| ==> digest(first[i].body) in allowed
    requires DigestsWithin(digest, rest, allowed)
    ensures DigestsWithin(digest, first + rest, allowed)
  {
    var all := first + rest;
    forall i | 0 <= i < |all| ensures digest(all[i].body) in allowed {
      if i >= |first| { assert all[i] == rest[i - |first|]; }
    }
  }

  /** Every file written carries a digest that was not recorded before
      and that belongs to one of the responses. */
  lemma {:induction false} DownloadAllWritesNewDigests(s: SpiderState, digest: Bytes -> string, rs: seq<AssetResponse>)
    ensures DigestsWithin(digest, DownloadAll(s, digest, rs).1, Digests(digest, rs) - s.assetHashes)
    decreases |rs|
  {
    if |rs| > 0 {
      var step := DownloadFile(s, digest, rs[0]);
      var rest := DownloadAll(step.0, digest, rs[1..]);
      DownloadAllWritesNewDigests(step.0, digest, rs[1..]);
      var allowed := Digests(digest, rs) - s.assetHashes;
      AllowedShrinks(digest, rs, s.assetHashes);
      WithinWiden(digest, rest.1, Digests(digest, rs[1..]) - step.0.assetHashes, allowed);
      var first: seq<AssetWrite> := if step.1.Stored? then [AssetWrite(step.1.filename, rs[0].body)] else [];
      DownloadAllCons(s, digest, rs);
      if step.1.Stored? {
        assert digest(rs[0].body) !in s.assetHashes;
      }
      WithinPrepend(digest, first, rest.1, allowed);
    }
  }

  /** Putting at most one write whose digest is already `known` in
      front of distinct writes whose digests avoid `known` keeps them
      distinct. */
  lemma DistinctPrepend(digest: Bytes -> string, first: seq<AssetWrite>, rest: seq<AssetWrite>,
                        known: set<string>, allowed: set<string>)
    requires |first| <= 1
    requires |first| == 1 ==> digest(first[0].body) in known
    requires DigestsDistinct(digest, rest)
    requires DigestsWithin(digest, rest, allowed) && known !! allowed
    ensures DigestsDistinct(digest, first + rest)
  {
    var all := first + rest;
    forall i, j | 0 <= i < j < |all| ensures digest(all[i].body) != digest(all[j].body) {
      assert all[j] == rest[j - |first|];
      if i >= |first| {
        assert all[i] == rest[i - |first|];
      }
    }
  }

  /** No two written files share a digest: one file per content. */
  lemma {:induction false} DownloadAllWritesEachDigestOnce(s: SpiderState, digest: Bytes -> string, rs: seq<AssetResponse>)
    ensures DigestsDistinct(digest, DownloadAll(s, digest, rs).1)
    decreases |rs|
  {
    if |rs| > 0 {
      var step := DownloadFile(s, digest, rs[0]);
      var rest := DownloadAll(step.0, digest, rs[1..]);
      DownloadAllWritesEachDigestOnce(step.0, digest, rs[1..]);
      DownloadAllWritesNewDigests(step.0, digest, rs[1..]);
      var first: seq<AssetWrite> := if step.1.Stored? then [AssetWrite(step.1.filename, rs[0].body)] else [];
      DownloadAllCons(s, digest, rs);
      DistinctPrepend(digest, first, rest.1, step.0.assetHashes, Digests(digest, rs[1..]) - step.0.assetHashes);
    }
  }

  /** The same bytes fetched under two different URLs are written at
      most once: exactly once when they are new and the first URL's
      basename names a file, otherwise not at all. */
  lemma SameBytesTwoUrlsOneFile(s: SpiderState, digest: Bytes -> string, u1: string, u2: string, body: Bytes)
    ensures var ws := DownloadAll(s, digest, [AssetResponse(u1, body, true), AssetResponse(u2, body, true)]).1;
            |ws| == (if digest(body) !in s.assetHashes && NamesAFile(AssetFilename(u1)) then 1 else 0)
    ensures var ws := DownloadAll(s, digest, [AssetResponse(u1, body, true), AssetResponse(u2, body, true)]).1;
            |ws| == 1 ==> ws[0] == AssetWrite(AssetFilename(u1), body)
  {
    var r1 := AssetResponse(u1, body, true);
    SecondOfSameBodyIsSkipped(s, digest, r1, AssetResponse(u2, body, true));
  }

  /** Of two responses with the same body, only the first can be
      written. */
  lemma SecondOfSameBodyIsSkipped(s: SpiderState, digest: Bytes -> string, r1: AssetResponse, r2: AssetResponse)
    requires r1.body == r2.body
    ensures var first := DownloadFile(s, digest, r1);
            DownloadAll(s, digest, [r1, r2]).1
            == if first.1.Stored? then [AssetWrite(first.1.filename, r1.body)] else []
  {
    var rs := [r1, r2];
    var first := DownloadFile(s, digest, rs[0]);
    assert rs[1..] == [rs[1]];
    var second := DownloadFile(first.0, digest, rs[1]);
    assert second.1 == DuplicateSkipped;
    assert rs[1..][1..] == [];
    assert DownloadAll(second.0, digest, rs[1..][1..]).1 == [];
    assert DownloadAll(first.0, digest, rs[1..]).1 == [];
  }

  /** An asset URL whose path ends in '/' is never stored, and its
      digest is spent all the same. */
  lemma DirectoryUrlIsNeverStored(s: SpiderState, digest: Bytes -> string, r: AssetResponse)
    requires |PathOf(r.url)| > 0 && PathOf(r.url)[|PathOf(r.url)| - 1] == '/'
    ensures !DownloadFile(s, digest, r).1.Stored?
    ensures digest(r.body) in DownloadFile(s, digest, r).0.assetHashes
  {
    var path := PathOf(r.url);
    var name := Basename(path);
    assert EndsWith(path, name);
  }

  /** A body whose write failed is never written later either: its
      digest was recorded before the write was attempted. */
  lemma FailedWriteIsNotRetried(s: SpiderState, digest: Bytes -> string, u1: string, u2: string, body: Bytes)
    requires digest(body) !in s.assetHashes
    ensures var first := DownloadFile(s, digest, AssetResponse(u1, body, false));
            && first.1 == WriteFailed(AssetFilename(u1))
            && DownloadFile(first.0, digest, AssetResponse(u2, body, true)).1 == DuplicateSkipped
  {
  }

  /** The asset directory after a sequence of writes: a file name
      written twice holds the later body. */
  function Directory(files: map<string, Bytes>, ws: seq<AssetWrite>): map<string, Bytes>
    decreases |ws|
  {
    if |ws| == 0 then files
    else Directory(files, ws[..|ws| - 1])[ws[|ws| - 1].filename := ws[|ws| - 1].body]
  }

  /** Last write wins: a written name holds the body of the last write
      under that name. */
  lemma {:induction false} DirectoryHoldsLastWrite(files: map<string, Bytes>, ws: seq<AssetWrite>, i: nat)
    requires i < |ws|
    requires forall j :: i < j < |ws| ==> ws[j].filename != ws[i].filename
    ensures ws[i].filename in Directory(files, ws) && Directory(files, ws)[ws[i].filename] == ws[i].body
    decreases |ws|
  {
    if i < |ws| - 1 {
      var init := ws[..|ws| - 1];
      assert forall j :: i < j < |init| ==> init[j] == ws[j];
      DirectoryHoldsLastWrite(files, init, i);
      assert ws[|ws| - 1].filename != ws[i].filename;
    }
  }

  /** Names nobody wrote keep their old content. */
  lemma {:induction false} DirectoryKeepsUnwritten(files: map<string, Bytes>, ws: seq<AssetWrite>, name: string)
    requires forall j :: 0 <= j < |ws| ==> ws[j].filename != name
    ensures name in Directory(files, ws) <==> name in files
    ensures name in files ==> Directory(files, ws)[name] == files[name]
    decreases |ws|
  {
    if |ws| > 0 {
      var init := ws[..|ws| - 1];
      assert forall j :: 0 <= j < |init| ==> init[j] == ws[j];
      DirectoryKeepsUnwritten(files, init, name);
    }
  }
}
