/**
 * File naming in the storage helpers (src/lib/vercel/storage.ts): the blob
 * name `uploadFile` stores an upload under, the metadata it returns, and
 * the URLs the simulated storage service hands out.  The id generator, the
 * clock and the blob store are inputs.
 */
module Storage {
  import opened Strings

  // ---------------------------------------------------------------------------
  // uploadFile
  // ---------------------------------------------------------------------------

  /** `filename.split('.').pop() || ''`: the text after the last '.'. */
  function Extension(filename: string): (ext: string)
    ensures !Contains(ext, ".")
  {
    var parts := Split(filename, ".");
    SplitPartsLackSeparator(filename, ".");
    parts[|parts| - 1]
  }

  /**
   * The name the blob is stored under: the generated id, a '.', then the
   * text after the filename's last '.' (the whole filename when it has
   * none).
   */
  function BlobName(id: string, filename: string): (name: string)
    ensures StartsWith(name, id + ".")
    ensures !Contains(name[|id| + 1..], ".")
    ensures !Contains(filename, ".") ==> name[|id| + 1..] == filename
    ensures Contains(filename, ".") ==> exists stem :: filename == stem + "." + name[|id| + 1..]
  {
    var ext := Extension(filename);
    assert (id + "." + ext)[|id| + 1..] == ext;
    assert !Contains(filename, ".") ==> ext == filename by {
      if !Contains(filename, ".") {
        NoDotWholeName(filename);
      }
    }
    assert Contains(filename, ".") ==> exists stem :: filename == stem + "." + ext by {
      if Contains(filename, ".") {
        DotThenExtension(filename);
      }
    }
    id + "." + ext
  }

  /** A filename without '.' is its own extension. */
  lemma NoDotWholeName(filename: string)
    requires !Contains(filename, ".")
    ensures Extension(filename) == filename
  {
    var parts := Split(filename, ".");
    assert |parts| == 1 && Join(parts, ".") == parts[0];
  }

  /** A filename with a '.' ends with that '.' and the extension. */
  lemma DotThenExtension(filename: string)
    requires Contains(filename, ".")
    ensures exists stem :: filename == stem + "." + Extension(filename)
  {
    var parts := Split(filename, ".");
    JoinLast(parts, ".");
    var stem := Join(parts[..|parts| - 1], ".");
    assert filename == stem + "." + Extension(filename);
  }

  /**
   * The text after the last '.' is well defined: two ways of writing a
   * string as something, a '.', and a dot-free tail have the same tail.
   */
  lemma DotFreeTailUnique(s1: string, e1: string, s2: string, e2: string)
    requires s1 + "." + e1 == s2 + "." + e2
    requires !Contains(e1, ".") && !Contains(e2, ".")
    ensures e1 == e2
  {
    var x := s1 + "." + e1;
    if |e1| < |e2| {
      DotInsideTail(x, s2, e2, |s1|);
    } else if |e2| < |e1| {
      DotInsideTail(x, s1, e1, |s2|);
    }
    assert e1 == x[|x| - |e1|..];
    assert e2 == x[|x| - |e2|..];
  }

  /** A '.' of `x == s + "." + e` that lies after position |s| is a '.' of `e`. */
  lemma DotInsideTail(x: string, s: string, e: string, p: nat)
    requires x == s + "." + e && |s| < p < |x| && x[p] == '.'
    ensures Contains(e, ".")
  {
    var q := p - |s| - 1;
    assert e[q] == x[p];
    assert e[q..q + 1] == ".";
    assert OccursAt(e, ".", q);
  }

  /** After a '.' and a dot-free tail, the extension is that tail. */
  lemma ExtensionOfDotted(stem: string, ext: string)
    requires !Contains(ext, ".")
    ensures Extension(stem + "." + ext) == ext
  {
    var filename := stem + "." + ext;
    assert filename[|stem|..|stem| + 1] == ".";
    assert OccursAt(filename, ".", |stem|);
    DotThenExtension(filename);
    var stem' :| filename == stem' + "." + Extension(filename);
    DotFreeTailUnique(stem, ext, stem', Extension(filename));
  }

  lemma LastCharNotDot(s: string)
    requires s != "" && !Contains(s, ".")
    ensures s[|s| - 1] != '.'
  {
    var k := |s| - 1;
    assert !OccursAt(s, ".", k);
    assert s[k..k + 1] == [s[k]];
  }

  /** The extension is empty exactly when the filename is empty or ends in '.'. */
  lemma EmptyExtension(filename: string)
    ensures Extension(filename) == "" <==> filename == "" || filename[|filename| - 1] == '.'
  {
    var ext := Extension(filename);
    if !Contains(filename, ".") {
      NoDotWholeName(filename);
      if filename != "" {
        LastCharNotDot(filename);
      }
    } else {
      DotThenExtension(filename);
      var stem :| filename == stem + "." + ext;
      if ext != "" {
        assert filename[|filename| - 1] == ext[|ext| - 1];
        LastCharNotDot(ext);
      }
    }
  }

  /** FileMetadata; `size` is never filled in by `uploadFile`. */
  datatype FileMetadata = FileMetadata(id: string, url: string, filename: string, contentType: string, uploadedAt: int)

  /** The call `put(pathname, data, { contentType, access })`; the data is not modelled. */
  datatype PutRequest = PutRequest(pathname: string, contentType: string, access: string)

  /** What `put` answers: the stored blob's URL, or a throw. */
  datatype PutResult = Stored(url: string) | PutFailed

  datatype UploadResult = Uploaded(metadata: FileMetadata) | UploadError(message: string)

  /** An upload: the request handed to `put`, and what `uploadFile` then resolves to. */
  datatype Upload = Upload(request: PutRequest, result: UploadResult)

  /**
   * uploadFile.  The data goes to `put` as a public blob under
   * BlobName(id, filename) with the caller's content type; `put`'s answer
   * is an input.  A stored blob is described by its metadata, which keeps
   * the caller's original filename.  Any failure becomes the fixed upload
   * error.
   */
  function UploadFile(id: string, filename: string, contentType: string, put: PutResult, now: int): (r: Upload)
    ensures r.request == PutRequest(BlobName(id, filename), contentType, "public")
    ensures put.Stored? <==> r.result.Uploaded?
    ensures r.result.Uploaded? ==> r.result.metadata == FileMetadata(id, put.url, filename, contentType, now)
    ensures r.result.UploadError? ==> r.result.message == "Falha ao fazer upload do arquivo"
  {
    var request := PutRequest(BlobName(id, filename), contentType, "public");
    match put
    case PutFailed => Upload(request, UploadError("Falha ao fazer upload do arquivo"))
    case Stored(url) => Upload(request, Uploaded(FileMetadata(id, url, filename, contentType, now)))
  }

  /**
   * The blob of an upload is named after the generated id and the text
   * after the filename's last '.': `clip.final.mp4` is stored as
   * `<id>.mp4`, while the metadata still reports `clip.final.mp4`.
   */
  lemma UploadNamesBlobByExtension(id: string, stem: string, ext: string, contentType: string,
                                   put: PutResult, now: int)
    requires !Contains(ext, ".")
    ensures var r := UploadFile(id, stem + "." + ext, contentType, put, now);
      && r.request.pathname == id + "." + ext
      && (r.result.Uploaded? ==> r.result.metadata.filename == stem + "." + ext)
  {
    ExtensionOfDotted(stem, ext);
  }

  // ---------------------------------------------------------------------------
  // VercelStorage: simulated URLs
  // ---------------------------------------------------------------------------

  const StorageBase := "https://exemplo.com/storage/"

  /** `name.replace(/\s+/g, '-').toLowerCase()`, with ASCII case folding. */
  function Slug(name: string): (slug: string)
    ensures NoWhitespace(slug)
    ensures |slug| <= |name|
    ensures forall k :: 0 <= k < |slug| ==> !('A' <= slug[k] <= 'Z')
  {
    var dashed := ReplaceWhitespaceRuns(name, '-');
    var slug := ToLowerAscii(dashed);
    assert forall k :: 0 <= k < |slug| ==> slug[k] == LowerChar(dashed[k]);
    slug
  }

  /** A name that is already lower-case without whitespace is its own slug. */
  lemma SlugOfPlainName(name: string)
    requires NoWhitespace(name) && forall k :: 0 <= k < |name| ==> !('A' <= name[k] <= 'Z')
    ensures Slug(name) == name
  {
  }

  /**
   * A whitespace run between a word and the rest of the name becomes a
   * single '-': the word is lower-cased, and the rest is slugged on its
   * own.  So "My  Home Video" gives "my-home-video".
   */
  lemma SlugOfWords(a: string, ws: string, b: string)
    requires NoWhitespace(a) && |ws| > 0 && AllWhitespace(ws)
    requires b == [] || !IsJsWhitespace(b[0])
    ensures Slug(a + ws + b) == ToLowerAscii(a) + "-" + Slug(b)
  {
    RunBecomesOne(a, ws, b, '-');
    var rb := ReplaceWhitespaceRuns(b, '-');
    LowerOfConcat(a + "-", rb);
    LowerOfConcat(a, "-");
  }

  /** getFileUrl(filePath) */
  function GetFileUrl(filePath: string): (url: string)
    ensures StartsWith(url, StorageBase) && url[|StorageBase|..] == filePath
  {
    StorageBase + filePath
  }

  /** uploadFile(file, path): the URL the simulated service reports for the file. */
  function SimulatedUploadUrl(fileName: string, path: string): (url: string)
    ensures url == GetFileUrl(path + "/" + Slug(fileName))
  {
    StorageBase + path + "/" + Slug(fileName)
  }
}
