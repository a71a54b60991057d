/** The pure part of `upload_to_s3` and `_get_content_type` in
    backend/file_processor.py: the extension of the uploaded file, the object key
    it is stored under, and the MIME type sent with it. */
module Upload {
  import opened Strings

  const OctetStream: string := "application/octet-stream"

  /** The `content_types` dictionary. */
  const ContentTypes: map<string, string> := map[
    "pdf" := "application/pdf",
    "png" := "image/png",
    "jpg" := "image/jpeg",
    "jpeg" := "image/jpeg",
    "tiff" := "image/tiff",
    "tif" := "image/tiff"
  ]

  /** `_get_content_type(file_extension)`: a lookup of the lower-cased extension,
      with `application/octet-stream` for anything not in the table. */
  function ContentType(extension: string): (r: string)
    ensures r == "application/pdf" <==> Lower(extension) == "pdf"
    ensures r == "image/png" <==> Lower(extension) == "png"
    ensures r == "image/jpeg" <==> Lower(extension) in {"jpg", "jpeg"}
    ensures r == "image/tiff" <==> Lower(extension) in {"tiff", "tif"}
    ensures r == OctetStream <==> Lower(extension) !in ContentTypes
  {
    var key := Lower(extension);
    if key in ContentTypes then ContentTypes[key] else OctetStream
  }

  /** The lookup ignores ASCII case: extensions that agree once lower-cased get the
      same type, and an extension gets the type of its lower-cased form. */
  lemma ContentTypeIgnoresCase(a: string, b: string)
    requires Lower(a) == Lower(b)
    ensures ContentType(a) == ContentType(b)
    ensures ContentType(Lower(a)) == ContentType(a)
  {
    LowerIdempotent(a);
  }

  /** The extension `upload_to_s3` derives: the last piece of the name split at
      dots, which is the text after the last dot, or `bin` when there is no dot. */
  function FileExtension(filename: string): (r: string)
    ensures '.' !in filename ==> r == "bin"
    ensures '.' in filename ==>
      '.' !in r && |r| < |filename| && filename == filename[..|filename| - |r|] + r &&
      filename[|filename| - |r| - 1] == '.'
  {
    if '.' in filename then
      var pieces := SplitOn(filename, '.');
      SplitOnLast(filename, '.');
      assert filename == filename[..|filename| - |pieces[|pieces| - 1]|] + pieces[|pieces| - 1];
      pieces[|pieces| - 1]
    else "bin"
  }

  /** The object key: the `reports/` prefix, the id, an underscore, then the file name. */
  function ObjectKey(uniqueId: string, filename: string): (r: string)
    ensures |r| == 8 + |uniqueId| + 1 + |filename|
    ensures r[..8] == "reports/" && r[8..8 + |uniqueId|] == uniqueId
    ensures r[8 + |uniqueId|] == '_' && r[9 + |uniqueId|..] == filename
  {
    "reports/" + uniqueId + "_" + filename
  }

  /** The key always lies under `reports/`, and for ids of one length (a `uuid4`
      string has 36 characters) it determines both the id and the filename. */
  lemma ObjectKeyInjective(u1: string, f1: string, u2: string, f2: string)
    requires |u1| == |u2|
    requires ObjectKey(u1, f1) == ObjectKey(u2, f2)
    ensures u1 == u2 && f1 == f2
    ensures ObjectKey(u1, f1)[..8] == "reports/"
  {
    var k := ObjectKey(u1, f1);
    assert u1 == k[8..8 + |u1|] == u2 by {
      assert k == "reports/" + u1 + "_" + f1;
      assert ObjectKey(u2, f2) == "reports/" + u2 + "_" + f2;
    }
    assert f1 == k[9 + |u1|..] == f2;
  }

  /** What `upload_to_s3` sends to `put_object` besides the bytes and the bucket. */
  datatype PutObject = PutObject(key: string, contentType: string)

  /** Lines 41-50 of `upload_to_s3`, with the generated id given. */
  function UploadRequest(uniqueId: string, filename: string): (r: PutObject)
    ensures |r.key| == 9 + |uniqueId| + |filename|
    ensures r.key[..8] == "reports/" && r.key[9 + |uniqueId|..] == filename
    ensures '.' !in filename ==> r.contentType == OctetStream
  {
    BinIsOctetStream();
    PutObject(ObjectKey(uniqueId, filename), ContentType(FileExtension(filename)))
  }

  /** A file name without a dot is sent as `application/octet-stream`, and one is
      sent by the type of the text after its last dot. */
  lemma UploadContentType(uniqueId: string, filename: string, stem: string, extension: string)
    ensures '.' !in filename ==> UploadRequest(uniqueId, filename).contentType == OctetStream
    ensures '.' !in extension ==>
      UploadRequest(uniqueId, stem + "." + extension).contentType == ContentType(extension)
  {
    if '.' !in filename {
      BinIsOctetStream();
    }
    if '.' !in extension {
      ExtensionAfterLastDot(stem, extension);
    }
  }

  lemma BinIsOctetStream()
    ensures ContentType("bin") == OctetStream
  {
    assert Lower("bin") == "bin";
  }

  /** The extension of `stem.extension` is `extension` when that holds no dot. */
  lemma ExtensionAfterLastDot(stem: string, extension: string)
    requires '.' !in extension
    ensures FileExtension(stem + "." + extension) == extension
  {
    var f := stem + "." + extension;
    assert f[|stem|] == '.';
    LastPieceAfterDot(stem, extension, FileExtension(f));
  }

  /** Two ways of splitting off a dot-free suffix after a dot agree. */
  lemma LastPieceAfterDot(stem: string, extension: string, r: string)
    requires '.' !in extension && '.' !in r
    requires |r| < |stem| + 1 + |extension|
    requires (stem + "." + extension)[|stem| + 1 + |extension| - |r| - 1] == '.'
    requires stem + "." + extension == (stem + "." + extension)[..|stem| + 1 + |extension| - |r|] + r
    ensures r == extension
  {
    var f := stem + "." + extension;
    var n := |f|;
    assert r == f[n - |r|..];
    assert extension == f[n - |extension|..];
    forall k | n - |r| <= k < n ensures f[k] != '.' {
      assert f[k] == r[k - (n - |r|)];
    }
    forall k | |stem| < k < n ensures f[k] != '.' {
      assert f[k] == extension[k - |stem| - 1];
    }
    assert f[|stem|] == '.';
  }
}
