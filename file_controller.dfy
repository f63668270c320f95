/** The file service's handlers over two stores: the blob store that holds
    the ePub and cover files, and the book collection that records where
    they are. Every call to the blob store or the collection is one step of
    a handler, and the outcome of each such call comes in as a parameter,
    so the state a handler leaves behind when a call fails part-way is
    stated exactly. */
module FileService {
  import opened Js
  import opened BookSchema

  /** One uploaded part of the multipart request. */
  datatype FilePart = FilePart(originalName: string, mimetype: string, buffer: seq<bv8>)

  /** The text fields of the request body; each may be absent. */
  datatype BookFields = BookFields(title: Option<string>, author: Option<string>, description: Option<string>)

  /** An upload sent to the blob store: the folder, whether it is a raw
      (non-image) resource, the requested public id, and the bytes. */
  datatype UploadRequest = UploadRequest(folder: string, raw: bool, name: string, data: seq<bv8>)

  /** What the blob store answers to an upload: the stored public id and
      its secure URL, or a rejection. */
  datatype UploadOutcome = Uploaded(publicId: string, secureUrl: string) | UploadFailed

  /** What the blob store answers to a destroy: a result string (`"ok"`,
      `"not found"`, ...), or a thrown error. */
  datatype DestroyOutcome = Replied(result: string) | DestroyThrew

  datatype BlobCall = UploadCall(request: UploadRequest) | DestroyCall(publicId: string, raw: bool)

  datatype Blob = Blob(source: UploadRequest, url: string)

  /** A handler's answer: the HTTP status and the book sent back, if any. */
  datatype FileReply = FileReply(status: int, book: Option<Book>)

  const EpubMime: string := "application/epub+zip"

  /** The ePub goes to folder `epub_files` as a raw resource named `<uuid>-<originalname>`. */
  function EpubRequest(uuid: string, part: FilePart): UploadRequest {
    UploadRequest("epub_files", true, uuid + "-" + part.originalName, part.buffer)
  }

  /** The cover goes to folder `cover_images` as an image named `<uuid>-<originalname>`. */
  function CoverRequest(uuid: string, part: FilePart): UploadRequest {
    UploadRequest("cover_images", false, uuid + "-" + part.originalName, part.buffer)
  }

  /** The blob store after an upload. */
  function Stored(blobs: map<string, Blob>, req: UploadRequest, u: UploadOutcome): map<string, Blob> {
    if u.Uploaded? then blobs[u.publicId := Blob(req, u.secureUrl)] else blobs
  }

  /** The blob store after a destroy: the blob is gone when the store says `"ok"`. */
  function Destroyed(blobs: map<string, Blob>, publicId: string, d: DestroyOutcome): map<string, Blob> {
    if d == Replied("ok") then blobs - {publicId} else blobs
  }

  /** The locator a part gets once it has been uploaded. */
  function Replacement(part: Option<FilePart>, u: UploadOutcome): Option<Locator> {
    if part.Some? && u.Uploaded? then Some(Locator(part.value.originalName, u.publicId, u.secureUrl)) else None
  }

  /** The calls of one replacement in an update: destroy the old blob, then,
      unless the destroy threw, upload the new one. */
  function ReplaceCalls(oldId: string, raw: bool, req: UploadRequest, d: DestroyOutcome): seq<BlobCall> {
    [DestroyCall(oldId, raw)] + (if d.DestroyThrew? then [] else [UploadCall(req)])
  }

  function ReplaceBlobs(blobs: map<string, Blob>, oldId: string, req: UploadRequest,
                        d: DestroyOutcome, u: UploadOutcome): map<string, Blob> {
    var afterDestroy := Destroyed(blobs, oldId, d);
    if d.DestroyThrew? then afterDestroy else Stored(afterDestroy, req, u)
  }

  /** A replacement goes through when the destroy answered (whatever its
      result) and the upload succeeded. */
  predicate ReplaceOk(d: DestroyOutcome, u: UploadOutcome) {
    d.Replied? && u.Uploaded?
  }

  /** The record after an update: the ePub locator and the cover locator
      are replaced when a new part was uploaded, and each text field takes
      the new value only when it is truthy. */
  function ApplyUpdate(b: Book, epub: Option<Locator>, cover: Option<Locator>, fields: BookFields): Book {
    WithText(WithAssets(b, epub, cover), fields)
  }

  function WithAssets(b: Book, epub: Option<Locator>, cover: Option<Locator>): Book {
    var b := if epub.Some? then b.(originalName := epub.value.originalName, publicId := epub.value.publicId, url := epub.value.url) else b;
    if cover.Some? then b.(coverImage := cover.value) else b
  }

  function WithText(b: Book, fields: BookFields): Book {
    var b := if Truthy(fields.title) then b.(title := fields.title) else b;
    var b := if Truthy(fields.author) then b.(author := fields.author) else b;
    if Truthy(fields.description) then b.(description := fields.description) else b
  }

  /** An update never changes the record's id or its upload date, and every
      other field changes only when a replacement for it was supplied. */
  lemma {:induction false} UpdateChangesOnlySupplied(b: Book, epub: Option<Locator>, cover: Option<Locator>, fields: BookFields)
    ensures var r := ApplyUpdate(b, epub, cover, fields);
      && r.id == b.id
      && r.uploadDate == b.uploadDate
      && EpubLocator(r) == (if epub.Some? then epub.value else EpubLocator(b))
      && r.coverImage == (if cover.Some? then cover.value else b.coverImage)
      && r.title == (if Truthy(fields.title) then fields.title else b.title)
      && r.author == (if Truthy(fields.author) then fields.author else b.author)
      && r.description == (if Truthy(fields.description) then fields.description else b.description)
  {
  }

  /** A valid record stays valid through an update whose new locators are complete. */
  lemma {:induction false} UpdateKeepsValid(b: Book, epub: Option<Locator>, cover: Option<Locator>, fields: BookFields)
    requires ValidBook(b)
    requires epub.Some? ==> ValidLocator(epub.value)
    requires cover.Some? ==> ValidLocator(cover.value)
    ensures ValidBook(ApplyUpdate(b, epub, cover, fields))
  {
  }

  // ---------------------------------------------------------------------
  // The getAllFiles filter: originalName matches /\.epub$/ with option `i`
  // ---------------------------------------------------------------------

  /** `\.epub` matches at position `i`, ignoring ASCII case. */
  predicate MatchesAt(s: string, i: int)
    requires 0 <= i <= |s| - 5
  {
    Lower(s[i..i + 5]) == ".epub"
  }

  /** The database's regular expressions follow PCRE, where `$` (without
      the multiline option) matches at the end of the subject and also just
      before a newline that ends it. */
  predicate DollarAt(s: string, j: int) {
    j == |s| || (0 <= j == |s| - 1 && s[j] == '\n')
  }

  predicate IsEpubName(s: string) {
    exists i :: 0 <= i <= |s| - 5 && MatchesAt(s, i) && DollarAt(s, i + 5)
  }

  /** A name matches exactly when it ends in `.epub` in any ASCII case,
      optionally followed by one final newline. */
  lemma {:induction false} EpubNameEnds(s: string)
    ensures IsEpubName(s) <==>
      (|s| >= 5 && Lower(s[|s| - 5..]) == ".epub")
      || (|s| >= 6 && s[|s| - 1] == '\n' && Lower(s[|s| - 6..|s| - 1]) == ".epub")
  {
    if |s| >= 5 && Lower(s[|s| - 5..]) == ".epub" {
      assert MatchesAt(s, |s| - 5) && DollarAt(s, |s|);
    }
    if |s| >= 6 && s[|s| - 1] == '\n' && Lower(s[|s| - 6..|s| - 1]) == ".epub" {
      assert MatchesAt(s, |s| - 6) && DollarAt(s, |s| - 1);
    }
    if IsEpubName(s) {
      var i :| 0 <= i <= |s| - 5 && MatchesAt(s, i) && DollarAt(s, i + 5);
      assert i == |s| - 5 || i == |s| - 6;
    }
  }

  /** Any name followed by an extension spelled `.epub` in any case matches. */
  lemma {:induction false} EpubExtensionMatches(stem: string, ext: string)
    requires Lower(ext) == ".epub"
    ensures IsEpubName(stem + ext)
  {
    var s := stem + ext;
    assert s[|s| - 5..] == ext;
    EpubNameEnds(s);
  }

  /** A name whose last character is neither `b`, `B` nor a newline never matches. */
  lemma {:induction false} OtherEndingsDoNotMatch(s: string)
    requires s == [] || (s[|s| - 1] != 'b' && s[|s| - 1] != 'B' && s[|s| - 1] != '\n')
    ensures !IsEpubName(s)
  {
    EpubNameEnds(s);
    if |s| >= 5 {
      assert Lower(s[|s| - 5..])[4] == LowerChar(s[|s| - 1]);
    }
  }

  /** The listing: exactly the records whose original name matches, unchanged. */
  function EpubFiles(records: map<string, Book>): (r: map<string, Book>)
    ensures forall id :: id in r <==> id in records && IsEpubName(records[id].originalName)
    ensures forall id :: id in r ==> r[id] == records[id]
  {
    map id | id in records && IsEpubName(records[id].originalName) :: records[id]
  }

  class AssetStore {
    var blobs: map<string, Blob>
    var records: map<string, Book>
    /** Every call made to the blob store, in order. */
    ghost var calls: seq<BlobCall>

    /** Each record sits under its own id. Stored records are not assumed
        to pass the current schema; every save validates again. */
    ghost predicate Valid()
      reads this
    {
      forall id :: id in records ==> records[id].id == id
    }

    constructor ()
      ensures Valid()
      ensures blobs == map[] && records == map[] && calls == []
    {
      blobs := map[];
      records := map[];
      calls := [];
    }

    /** One upload to the blob store. */
    method Upload(req: UploadRequest, outcome: UploadOutcome)
      modifies this
      ensures calls == old(calls) + [UploadCall(req)]
      ensures blobs == Stored(old(blobs), req, outcome)
      ensures records == old(records)
    {
      calls := calls + [UploadCall(req)];
      if outcome.Uploaded? {
        blobs := blobs[outcome.publicId := Blob(req, outcome.secureUrl)];
      }
    }

    /** One destroy on the blob store; `threw` when the call rejected. */
    method Destroy(publicId: string, raw: bool, outcome: DestroyOutcome) returns (threw: bool, result: string)
      modifies this
      ensures calls == old(calls) + [DestroyCall(publicId, raw)]
      ensures blobs == Destroyed(old(blobs), publicId, outcome)
      ensures records == old(records)
      ensures threw <==> outcome.DestroyThrew?
      ensures !threw ==> result == outcome.result
    {
      calls := calls + [DestroyCall(publicId, raw)];
      if outcome.DestroyThrew? {
        return true, "";
      }
      if outcome.result == "ok" {
        blobs := blobs - {publicId};
      }
      return false, outcome.result;
    }

    /** One replacement in an update: destroy the old blob, ignoring the
        result string, then upload the new one unless the destroy threw. */
    method Replace(oldId: string, raw: bool, req: UploadRequest, d: DestroyOutcome, u: UploadOutcome)
      returns (ok: bool)
      modifies this
      ensures calls == old(calls) + ReplaceCalls(oldId, raw, req, d)
      ensures blobs == ReplaceBlobs(old(blobs), oldId, req, d, u)
      ensures records == old(records)
      ensures ok <==> ReplaceOk(d, u)
    {
      var threw, _ := Destroy(oldId, raw, d);
      if threw {
        return false;
      }
      Upload(req, u);
      return u.Uploaded?;
    }

    /** The blob half of an update: replace the ePub when one was sent,
        then the cover when one was sent, stopping at the first replacement
        that does not go through. */
    method ReplaceAssets(file: Book, epub: Option<FilePart>, cover: Option<FilePart>,
                         epubUuid: string, coverUuid: string,
                         epubDestroy: DestroyOutcome, epubUpload: UploadOutcome,
                         coverDestroy: DestroyOutcome, coverUpload: UploadOutcome) returns (ok: bool, patched: Book)
      modifies this
      ensures records == old(records)
      ensures var epubOk := epub.None? || ReplaceOk(epubDestroy, epubUpload);
        var blobs1 := if epub.None? then old(blobs)
                      else ReplaceBlobs(old(blobs), file.publicId, EpubRequest(epubUuid, epub.value), epubDestroy, epubUpload);
        var coverTried := epubOk && cover.Some?;
        && ok == (epubOk && (cover.None? || ReplaceOk(coverDestroy, coverUpload)))
        && calls == old(calls)
             + (if epub.None? then [] else ReplaceCalls(file.publicId, true, EpubRequest(epubUuid, epub.value), epubDestroy))
             + (if coverTried then ReplaceCalls(file.coverImage.publicId, false, CoverRequest(coverUuid, cover.value), coverDestroy) else [])
        && blobs == (if coverTried
                     then ReplaceBlobs(blobs1, file.coverImage.publicId, CoverRequest(coverUuid, cover.value), coverDestroy, coverUpload)
                     else blobs1)
      ensures ok ==> patched == WithAssets(file, Replacement(epub, epubUpload), Replacement(cover, coverUpload))
    {
      patched := file;
      if epub.Some? {
        var epubFile := epub.value;
        ok := Replace(patched.publicId, true, EpubRequest(epubUuid, epubFile), epubDestroy, epubUpload);
        if !ok {
          return;
        }
        patched := patched.(originalName := epubFile.originalName, publicId := epubUpload.publicId, url := epubUpload.secureUrl);
      }
      if cover.Some? {
        var coverImage := cover.value;
        ok := Replace(patched.coverImage.publicId, false, CoverRequest(coverUuid, coverImage), coverDestroy, coverUpload);
        if !ok {
          return;
        }
        patched := patched.(coverImage := Locator(coverImage.originalName, coverUpload.publicId, coverUpload.secureUrl));
      }
      ok := true;
    }

    /** `save()`: validation first, then the write; inserting a new record
        also fails when its id is taken. */
    method Save(b: Book, insert: bool, transportOk: bool) returns (ok: bool)
      requires Valid()
      requires !insert ==> b.id in records
      modifies this`records
      ensures Valid()
      ensures ok <==> transportOk && ValidBook(b) && (insert ==> b.id !in old(records))
      ensures records == if ok then old(records)[b.id := b] else old(records)
    {
      ok := transportOk && ValidBook(b) && (insert ==> b.id !in records);
      if ok {
        records := records[b.id := b];
      }
    }

    /** uploadFiles: both parts must be present, the ePub must have the
        ePub mimetype; the ePub is uploaded, then the cover, then the
        record is saved. A failure after an upload leaves that blob stored. */
    method UploadFiles(epub: Option<FilePart>, cover: Option<FilePart>, fields: BookFields,
                       epubUuid: string, coverUuid: string,
                       epubUpload: UploadOutcome, coverUpload: UploadOutcome,
                       freshId: string, now: int, saveOk: bool) returns (reply: FileReply)
      requires Valid()
      modifies this
      ensures Valid()
      ensures epub.None? || cover.None? ==> reply == FileReply(500, None) && unchanged(this)
      ensures epub.Some? && cover.Some? && epub.value.mimetype != EpubMime ==>
        reply == FileReply(400, None) && unchanged(this)
      ensures epub.Some? && cover.Some? && epub.value.mimetype == EpubMime ==>
        var er, cr := EpubRequest(epubUuid, epub.value), CoverRequest(coverUuid, cover.value);
        && calls == old(calls) + [UploadCall(er)] + (if epubUpload.Uploaded? then [UploadCall(cr)] else [])
        && blobs == (if epubUpload.Uploaded? then Stored(Stored(old(blobs), er, epubUpload), cr, coverUpload) else old(blobs))
        && (epubUpload.UploadFailed? || coverUpload.UploadFailed? ==>
              reply == FileReply(500, None) && records == old(records))
        && (epubUpload.Uploaded? && coverUpload.Uploaded? ==>
              var b := NewBook(freshId, now, Replacement(epub, epubUpload).value, Replacement(cover, coverUpload).value,
                               fields.title, fields.author, fields.description);
              if saveOk && ValidBook(b) && freshId !in old(records)
              then reply == FileReply(201, Some(b)) && records == old(records)[freshId := b]
              else reply == FileReply(500, None) && records == old(records))
    {
      if epub.None? || cover.None? {
        return FileReply(500, None);
      }
      var epubFile, coverImage := epub.value, cover.value;
      if epubFile.mimetype != EpubMime {
        return FileReply(400, None);
      }
      Upload(EpubRequest(epubUuid, epubFile), epubUpload);
      if epubUpload.UploadFailed? {
        return FileReply(500, None);
      }
      Upload(CoverRequest(coverUuid, coverImage), coverUpload);
      if coverUpload.UploadFailed? {
        return FileReply(500, None);
      }
      var newFile := NewBook(freshId, now,
        Locator(epubFile.originalName, epubUpload.publicId, epubUpload.secureUrl),
        Locator(coverImage.originalName, coverUpload.publicId, coverUpload.secureUrl),
        fields.title, fields.author, fields.description);
      var ok := Save(newFile, true, saveOk);
      if !ok {
        return FileReply(500, None);
      }
      return FileReply(201, Some(newFile));
    }

    /** getFile as written: a missing id reaches the stray identifier after
        the `if`, which throws, so the answer is 500 rather than 404. */
    function GetFile(id: string): (r: FileReply)
      reads this
      ensures id in records ==> r == FileReply(200, Some(records[id]))
      ensures id !in records ==> r == FileReply(500, None)
    {
      if id in records then FileReply(200, Some(records[id])) else FileReply(500, None)
    }

    /** getFile as evidently intended: 404 for a missing id. */
    function GetFileIntended(id: string): (r: FileReply)
      reads this
      ensures r.status == 200 <==> id in records
      ensures r.status == 404 <==> id !in records
      ensures r.book.Some? <==> id in records
      ensures id in records ==> r.book.value == records[id]
    {
      if id in records then FileReply(200, Some(records[id])) else FileReply(404, None)
    }

    /** The discrepancy: a missing record answers 500 as written, where 404 was meant. */
    lemma {:induction false} MissingFileAnswers500(id: string)
      requires id !in records
      ensures GetFile(id) == FileReply(500, None)
      ensures GetFileIntended(id) == FileReply(404, None)
    {
    }

    /** deleteFile: destroy the ePub blob, then the cover blob, then the
        record, stopping with 500 at the first destroy that does not answer
        `"ok"`; an unknown id is 404 without any blob-store call. */
    method DeleteFile(id: string, epubDestroy: DestroyOutcome, coverDestroy: DestroyOutcome, deleteOk: bool)
      returns (status: int)
      requires Valid()
      modifies this
      ensures Valid()
      ensures id !in old(records) ==> status == 404 && unchanged(this)
      ensures id in old(records) ==>
        var f := old(records)[id];
        var epubGone := epubDestroy == Replied("ok");
        && calls == old(calls) + [DestroyCall(f.publicId, true)]
                   + (if epubGone then [DestroyCall(f.coverImage.publicId, false)] else [])
        && blobs == (if epubGone then Destroyed(Destroyed(old(blobs), f.publicId, epubDestroy), f.coverImage.publicId, coverDestroy)
                     else old(blobs))
        && (status == 200 <==> epubGone && coverDestroy == Replied("ok") && deleteOk)
        && (status != 200 ==> status == 500)
        && records == (if status == 200 then old(records) - {id} else old(records))
    {
      if id !in records {
        return 404;
      }
      var file := records[id];
      var threw, result := Destroy(file.publicId, true, epubDestroy);
      if threw || result != "ok" {
        return 500;
      }
      threw, result := Destroy(file.coverImage.publicId, false, coverDestroy);
      if threw || result != "ok" {
        return 500;
      }
      if !deleteOk {
        return 500;
      }
      records := records - {id};
      return 200;
    }

    /** updateFile: check the new ePub's mimetype, destroy the old ePub and
        upload the new one, do the same for the cover (without a mimetype
        check), patch the truthy text fields and save. A destroy's result
        string is not checked; a destroy that throws, an upload that fails
        or a failed save ends the request with 500 and leaves the record
        as it was, with the blob-store changes made so far. */
    method UpdateFile(id: string, epub: Option<FilePart>, cover: Option<FilePart>, fields: BookFields,
                      epubUuid: string, coverUuid: string,
                      epubDestroy: DestroyOutcome, epubUpload: UploadOutcome,
                      coverDestroy: DestroyOutcome, coverUpload: UploadOutcome,
                      saveOk: bool) returns (reply: FileReply)
      requires Valid()
      modifies this
      ensures Valid()
      ensures id !in old(records) ==> reply == FileReply(404, None) && unchanged(this)
      ensures id in old(records) && epub.Some? && epub.value.mimetype != EpubMime ==>
        reply == FileReply(400, None) && unchanged(this)
      ensures id in old(records) && (epub.None? || epub.value.mimetype == EpubMime) ==>
        var f := old(records)[id];
        var epubOk := epub.None? || ReplaceOk(epubDestroy, epubUpload);
        var blobs1 := if epub.None? then old(blobs)
                      else ReplaceBlobs(old(blobs), f.publicId, EpubRequest(epubUuid, epub.value), epubDestroy, epubUpload);
        var coverTried := epubOk && cover.Some?;
        var coverOk := cover.None? || ReplaceOk(coverDestroy, coverUpload);
        var updated := ApplyUpdate(f, Replacement(epub, epubUpload), Replacement(cover, coverUpload), fields);
        && calls == old(calls)
             + (if epub.None? then [] else ReplaceCalls(f.publicId, true, EpubRequest(epubUuid, epub.value), epubDestroy))
             + (if coverTried then ReplaceCalls(f.coverImage.publicId, false, CoverRequest(coverUuid, cover.value), coverDestroy) else [])
        && blobs == (if coverTried
                     then ReplaceBlobs(blobs1, f.coverImage.publicId, CoverRequest(coverUuid, cover.value), coverDestroy, coverUpload)
                     else blobs1)
        && (if epubOk && coverOk && saveOk && ValidBook(updated)
            then reply == FileReply(200, Some(updated)) && records == old(records)[id := updated]
            else reply == FileReply(500, None) && records == old(records))
      // The partial-failure state: the old ePub is destroyed, the new one
      // never arrives, and the stored record still points at the old one.
      ensures id in old(records) && epub.Some? && epub.value.mimetype == EpubMime
              && epubDestroy == Replied("ok") && epubUpload.UploadFailed? ==>
        reply.status == 500 && records == old(records) && old(records)[id].publicId !in blobs
    {
      if id !in records {
        return FileReply(404, None);
      }
      var file := records[id];
      if epub.Some? && epub.value.mimetype != EpubMime {
        return FileReply(400, None);
      }
      var replaced, patched := ReplaceAssets(file, epub, cover, epubUuid, coverUuid,
                                             epubDestroy, epubUpload, coverDestroy, coverUpload);
      if !replaced {
        return FileReply(500, None);
      }
      file := patched;
      if Truthy(fields.title) {
        file := file.(title := fields.title);
      }
      if Truthy(fields.author) {
        file := file.(author := fields.author);
      }
      if Truthy(fields.description) {
        file := file.(description := fields.description);
      }
      var ok := Save(file, false, saveOk);
      if !ok {
        return FileReply(500, None);
      }
      return FileReply(200, Some(file));
    }

    /** getAllFiles: the records whose original name ends in `.epub`, in any case. */
    function GetAllFiles(): (r: map<string, Book>)
      reads this
      ensures forall id :: id in r <==> id in records && IsEpubName(records[id].originalName)
      ensures forall id :: id in r ==> r[id] == records[id]
    {
      EpubFiles(records)
    }
  }
}
