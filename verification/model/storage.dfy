/** The object-storage helpers: the generated object names, the public URL
    of an uploaded object and the key recovered from such a URL when the
    object is deleted.  The storage service itself is a parameter: whether
    an upload or a deletion succeeds is an input. */
module Storage {
  import opened Base
  import opened Strings

  const UploadFailed: string := "Failed to upload file"
  const DeleteFailed: string := "Failed to delete file"

  /** Position of the last occurrence of `c`. */
  function LastIndexOf(s: string, c: char): (r: Option<nat>)
    ensures r.None? <==> c !in s
    ensures r.Some? ==> r.value < |s| && s[r.value] == c && c !in s[r.value + 1..]
  {
    if |s| == 0 then None
    else if s[|s| - 1] == c then Some(|s| - 1)
    else
      var r := LastIndexOf(s[..|s| - 1], c);
      assert s == s[..|s| - 1] + [s[|s| - 1]];
      if r.Some? then
        assert s[r.value + 1..] == s[..|s| - 1][r.value + 1..] + [s[|s| - 1]];
        r
      else r
  }

  /** The position of a `c` with no `c` after it is the last one. */
  lemma LastIndexOfIs(s: string, c: char, k: nat)
    requires k < |s| && s[k] == c && c !in s[k + 1..]
    ensures LastIndexOf(s, c) == Some(k)
  {
    var r := LastIndexOf(s, c).value;
    forall m | k < m < |s| ensures s[m] != c {
      assert s[m] == s[k + 1..][m - k - 1];
    }
    forall m | r < m < |s| ensures s[m] != c {
      assert s[m] == s[r + 1..][m - r - 1];
    }
  }

  /** `s` without its trailing slashes. */
  function DropTrailingSlashes(s: string): (r: string)
    ensures |r| <= |s| && r == s[..|r|]
    ensures |r| > 0 ==> r[|r| - 1] != '/'
    ensures |s| > 0 && s[|s| - 1] != '/' ==> r == s
  {
    if |s| == 0 || s[|s| - 1] != '/' then s else DropTrailingSlashes(s[..|s| - 1])
  }

  /** The last path segment, trailing slashes ignored. */
  function LastSegment(s: string): (r: string)
    ensures '/' !in r
    ensures '/' !in s ==> r == s
  {
    var t := DropTrailingSlashes(s);
    match LastIndexOf(t, '/')
    case None =>
      assert '/' !in s ==> t == s;
      t
    case Some(k) => t[k + 1..]
  }

  /** `path.extname(name)`: from the last `.` of the last segment to its
      end, or empty when the segment has no `.`, when its only `.` starts
      it, or when it is `..`. */
  function ExtName(name: string): (e: string)
    ensures e == [] || (e[0] == '.' && '.' !in e[1..] && '/' !in e)
    ensures '.' !in name ==> e == []
  {
    var seg := LastSegment(name);
    match LastIndexOf(seg, '.')
    case None => []
    case Some(k) =>
      if k == 0 || seg == ".." then []
      else
        assert seg[k..][1..] == seg[k + 1..];
        seg[k..]
  }

  /** A name made of a base and an extension free of dots has that
      extension. */
  lemma ExtNameOf(base: string, ext: string)
    requires |base| > 0 && '/' !in base && base != "."
    requires '.' !in ext && '/' !in ext
    ensures ExtName(base + "." + ext) == "." + ext
  {
    var name := base + "." + ext;
    assert '/' !in name;
    var seg := LastSegment(name);
    assert seg == name;
    assert name[|base|] == '.';
    assert '.' !in name[|base| + 1..] by {
      assert name[|base| + 1..] == ext;
    }
    LastIndexOfIs(name, '.', |base|);
    var k := |base|;
    assert seg[k..] == "." + ext;
    assert seg != ".." by {
      if |seg| == 2 {
        assert base == seg[..1];
      }
    }
  }

  /** Sixteen lowercase hexadecimal digits: eight random bytes as hex. */
  predicate IsHash(h: string) {
    |h| == 16 && forall i :: 0 <= i < |h| ==> ('0' <= h[i] <= '9') || ('a' <= h[i] <= 'f')
  }

  /** `generateUniqueFileName(originalName)` at the given clock reading and
      with the given random hex digits. */
  function UniqueFileName(timestamp: nat, hash: string, originalName: string): (r: string)
    ensures |r| == |NatToString(timestamp)| + 1 + |hash| + |ExtName(originalName)|
    ensures r[..|NatToString(timestamp)|] == NatToString(timestamp)
    ensures r[|NatToString(timestamp)|] == '-'
    ensures r[|NatToString(timestamp)| + 1..|NatToString(timestamp)| + 1 + |hash|] == hash
  {
    NatToString(timestamp) + "-" + hash + ExtName(originalName)
  }

  /** The generated name keeps the original extension. */
  lemma UniqueFileNameKeepsExtension(timestamp: nat, hash: string, originalName: string)
    requires IsHash(hash)
    ensures ExtName(UniqueFileName(timestamp, hash, originalName)) == ExtName(originalName)
  {
    var stem := NatToString(timestamp) + "-" + hash;
    assert UniqueFileName(timestamp, hash, originalName) == stem + ExtName(originalName);
    StemIsPlain(timestamp, hash);
    assert stem[|stem| - 1 - |hash|] == '-';
    PlainStemKeepsExtension(stem, ExtName(originalName));
  }

  lemma PlainStemKeepsExtension(stem: string, e: string)
    requires |stem| > 0 && '/' !in stem && '.' !in stem
    requires e == [] || (e[0] == '.' && '.' !in e[1..] && '/' !in e)
    ensures ExtName(stem + e) == e
  {
    if e == [] {
      assert stem + e == stem;
    } else {
      assert e == "." + e[1..];
      assert stem + e == stem + "." + e[1..];
      ExtNameOf(stem, e[1..]);
    }
  }

  /** The time stamp and the hash hold neither `.` nor `/`. */
  lemma StemIsPlain(timestamp: nat, hash: string)
    requires IsHash(hash)
    ensures var stem := NatToString(timestamp) + "-" + hash;
            '/' !in stem && '.' !in stem
  {
    var digits := NatToString(timestamp);
    var stem := digits + "-" + hash;
    forall i | 0 <= i < |stem| ensures stem[i] != '/' && stem[i] != '.' {
      if i < |digits| {
        assert stem[i] == digits[i];
        assert IsAsciiDigit(digits[i]);
      } else if i > |digits| {
        assert stem[i] == hash[i - |digits| - 1];
      }
    }
  }

  /** Names drawn at the same instant with different random digits differ. */
  lemma UniqueFileNamesDiffer(timestamp: nat, h1: string, h2: string, n1: string, n2: string)
    requires IsHash(h1) && IsHash(h2) && h1 != h2
    ensures UniqueFileName(timestamp, h1, n1) != UniqueFileName(timestamp, h2, n2)
  {
    var t := |NatToString(timestamp)|;
    var a := UniqueFileName(timestamp, h1, n1);
    var b := UniqueFileName(timestamp, h2, n2);
    assert a[t + 1..t + 17] == h1 && b[t + 1..t + 17] == h2;
  }

  /** The host part of every public URL, with the slash after it: the
      bucket, a dot, the endpoint. */
  function Location(bucket: string, endpoint: string): (r: string)
    ensures |r| > 0
  {
    bucket + "." + endpoint + "/"
  }

  /** The public URL of the object stored under `key`. */
  function PublicUrl(bucket: string, endpoint: string, key: string): string {
    "https://" + Location(bucket, endpoint) + key
  }

  /** A file handed to the upload helper. */
  datatype File = File(originalName: string, mimetype: string)

  /** `uploadFile(file, folder)`: nothing for no file, otherwise the key
      `folder/name` under a fresh name and the public URL of the object,
      or the upload error. */
  function UploadFile(file: Option<File>, folder: string, bucket: string, endpoint: string,
                      timestamp: nat, hash: string, uploaded: bool): (r: Result<Option<string>, string>)
    ensures file.None? ==> r == Ok(None)
    ensures file.Some? && !uploaded ==> r == Err(UploadFailed)
    ensures file.Some? && uploaded ==>
              r == Ok(Some(PublicUrl(bucket, endpoint,
                                     folder + "/" + UniqueFileName(timestamp, hash, file.value.originalName))))
  {
    match file
    case None => Ok(None)
    case Some(f) =>
      var key := folder + "/" + UniqueFileName(timestamp, hash, f.originalName);
      if !uploaded then Err(UploadFailed) else Ok(Some(PublicUrl(bucket, endpoint, key)))
  }

  /** The text before the first occurrence of `t` does not contain `t`. */
  lemma BeforeFirstOccurrence(s: string, t: string, j: nat)
    requires |t| > 0 && FirstOccurrence(s, t) == Some(j)
    ensures !Contains(s[..j], t)
  {
    forall m | 0 <= m <= j
      ensures !OccursAt(s[..j], t, m)
    {
      assert !OccursAt(s, t, m) || m == j;
      if m + |t| <= j {
        assert s[..j][m..m + |t|] == s[m..m + |t|];
      }
    }
  }

  /** An occurrence with none before it is the first. */
  lemma FirstOccurrenceIs(s: string, t: string, i: nat)
    requires OccursAt(s, t, i) && forall j :: 0 <= j < i ==> !OccursAt(s, t, j)
    ensures FirstOccurrence(s, t) == Some(i)
  {
    assert Contains(s, t);
  }

  /** `s.split(sep)[1]`: the text between the first occurrence of `sep` and
      the next one (or the end), and nothing when `sep` does not occur. */
  function SecondPiece(s: string, sep: string): (r: Option<string>)
    requires |sep| > 0
    ensures r.None? <==> !Contains(s, sep)
    ensures r.Some? ==> !Contains(r.value, sep)
    ensures r.Some? ==> var i := FirstOccurrence(s, sep).value;
              StartsWith(s[i + |sep|..], r.value)
  {
    match FirstOccurrence(s, sep)
    case None => None
    case Some(i) =>
      var rest := s[i + |sep|..];
      match FirstOccurrence(rest, sep)
      case None => Some(rest)
      case Some(j) =>
        BeforeFirstOccurrence(rest, sep, j);
        Some(rest[..j])
  }

  /** `deleteFile(fileUrl)`: nothing for an empty URL; otherwise the key
      taken from the URL is deleted.  A URL that does not hold the location
      gives no key, and an empty key is refused by the client before any
      request; both surface as the deletion error. */
  function DeleteFile(fileUrl: Option<string>, bucket: string, endpoint: string, deleted: bool)
    : (r: Result<Option<string>, string>)
    ensures fileUrl.None? || fileUrl == Some("") ==> r == Ok(None)
    ensures r.Ok? && r.value.Some? ==>
              fileUrl.Some? && SecondPiece(fileUrl.value, Location(bucket, endpoint)) == r.value
              && |r.value.value| > 0 && deleted
    ensures fileUrl.Some? && fileUrl != Some("") && !Contains(fileUrl.value, Location(bucket, endpoint)) ==>
              r == Err(DeleteFailed)
    ensures r.Err? ==> r.error == DeleteFailed
  {
    match fileUrl
    case None => Ok(None)
    case Some(url) =>
      if |url| == 0 then Ok(None)
      else
        match SecondPiece(url, Location(bucket, endpoint))
        case None => Err(DeleteFailed)
        case Some(key) =>
          if |key| == 0 || !deleted then Err(DeleteFailed) else Ok(Some(key))
  }

  /** With a bucket and endpoint free of slashes, the location first occurs
      right after the scheme. */
  lemma LocationAfterScheme(bucket: string, endpoint: string, key: string)
    requires '/' !in bucket && '/' !in endpoint
    ensures FirstOccurrence(PublicUrl(bucket, endpoint, key), Location(bucket, endpoint)) == Some(8)
  {
    var url := PublicUrl(bucket, endpoint, key);
    var sep := Location(bucket, endpoint);
    assert url[..8] == "https://";
    assert url[8..8 + |sep|] == sep;
    assert sep[|bucket|] == '.';
    forall j | 0 <= j < 8
      ensures !OccursAt(url, sep, j)
    {
      if j + |sep| <= 8 {
        // the dot after the bucket would fall inside the scheme
        assert url[j + |bucket|] == url[..8][j + |bucket|];
        assert url[j + |bucket|] != '.';
        if j + |sep| <= |url| {
          assert url[j..j + |sep|][|bucket|] == url[j + |bucket|];
        }
      } else {
        // the slash that ends the scheme would fall inside the location
        assert url[7] == '/';
        assert sep[7 - j] != '/' by {
          assert 7 - j < |sep| - 1;
          assert sep[..|sep| - 1] == bucket + "." + endpoint;
          assert sep[7 - j] == sep[..|sep| - 1][7 - j];
        }
        if j + |sep| <= |url| {
          assert url[j..j + |sep|][7 - j] == url[7];
        }
      }
    }
    assert OccursAt(url, sep, 8);
    FirstOccurrenceIs(url, sep, 8);
  }

  /** Deleting the file at a URL the upload returned deletes the object the
      upload stored, provided the bucket and endpoint hold no slash and the
      key does not contain the location again. */
  lemma UploadThenDelete(file: File, folder: string, bucket: string, endpoint: string,
                         timestamp: nat, hash: string)
    requires '/' !in bucket && '/' !in endpoint
    requires !Contains(folder + "/" + UniqueFileName(timestamp, hash, file.originalName), Location(bucket, endpoint))
    ensures var key := folder + "/" + UniqueFileName(timestamp, hash, file.originalName);
            var url := UploadFile(Some(file), folder, bucket, endpoint, timestamp, hash, true).value.value;
            DeleteFile(Some(url), bucket, endpoint, true) == Ok(Some(key))
  {
    var key := folder + "/" + UniqueFileName(timestamp, hash, file.originalName);
    assert key[|folder|] == '/';
    DeleteAtPublicUrl(bucket, endpoint, key);
  }

  /** The key taken from the public URL of an object is the object's key. */
  lemma DeleteAtPublicUrl(bucket: string, endpoint: string, key: string)
    requires '/' !in bucket && '/' !in endpoint
    requires |key| > 0 && !Contains(key, Location(bucket, endpoint))
    ensures DeleteFile(Some(PublicUrl(bucket, endpoint, key)), bucket, endpoint, true) == Ok(Some(key))
  {
    var url := PublicUrl(bucket, endpoint, key);
    var sep := Location(bucket, endpoint);
    LocationAfterScheme(bucket, endpoint, key);
    assert url[8 + |sep|..] == key;
  }
}
