/** app.js: the upload helpers and the final Express error handler. The
    MIME filter and the stored file name are pure decisions; the
    `/post-image` handler answers by branching and may have `clearImage`
    remove the image the client says it replaces. */
module App {
  import opened Common
  import opened Text

  /** The MIME types the upload filter lets through. */
  const AcceptedTypes: set<string> := {"image/png", "image/jpg", "image/jpeg"}

  /** `fileFilter`: accept exactly the three image types, compared verbatim. */
  function FileFilter(mimetype: string): (accept: bool)
    ensures accept <==> mimetype in AcceptedTypes
  {
    mimetype == "image/png" || mimetype == "image/jpg" || mimetype == "image/jpeg"
  }

  /** The stored extension: a dot, then the MIME type from just after its
      first `/` (when there is none, `indexOf` gives -1 and the whole type is kept). */
  function FileExtension(mimetype: string): (ext: string)
    ensures '/' !in mimetype ==> ext == "." + mimetype
    ensures '/' in mimetype ==>
              exists k :: 0 <= k < |mimetype| && mimetype[k] == '/' && '/' !in mimetype[..k]
                          && ext == "." + mimetype[k + 1..]
  {
    "." + mimetype[IndexOf(mimetype, '/') + 1..]
  }

  /** The subtype after a `/`-free type name becomes the extension. */
  lemma ExtensionOfSubtype(kind: string, subtype: string)
    requires '/' !in kind
    ensures FileExtension(kind + "/" + subtype) == "." + subtype
  {
    var m := kind + "/" + subtype;
    assert m[|kind|] == '/' && m[..|kind|] == kind && m[|kind| + 1..] == subtype;
  }

  /** The name given to a stored upload: the generated UUID, then the extension. */
  function StoredFilename(uuid: string, mimetype: string): (name: string)
    ensures |name| > |uuid| && name[..|uuid|] == uuid && name[|uuid|..] == FileExtension(mimetype)
  {
    uuid + FileExtension(mimetype)
  }

  /** An `image/<subtype>` type is stored with `.<subtype>`. */
  lemma ImageExtension(mimetype: string, subtype: string)
    requires mimetype == "image" + "/" + subtype
    ensures FileExtension(mimetype) == "." + subtype
  {
    ExtensionOfSubtype("image", subtype);
  }

  /** The three image types are `image/` followed by their subtype. */
  lemma ImageSubtype(mimetype: string)
    requires mimetype == "image/png" || mimetype == "image/jpg" || mimetype == "image/jpeg"
    ensures mimetype == "image" + "/" + mimetype[6..]
    ensures mimetype[6..] == "png" || mimetype[6..] == "jpg" || mimetype[6..] == "jpeg"
  {
  }

  /** An image type with one of the three subtypes is stored with that subtype as extension. */
  lemma SubtypeExtension(mimetype: string, subtype: string)
    requires mimetype == "image" + "/" + subtype
    requires subtype == "png" || subtype == "jpg" || subtype == "jpeg"
    ensures var ext := FileExtension(mimetype); ext == ".png" || ext == ".jpg" || ext == ".jpeg"
    ensures '\\' !in FileExtension(mimetype)
  {
    ImageExtension(mimetype, subtype);
  }

  /** Every accepted upload is stored as `.png`, `.jpg` or `.jpeg`. */
  lemma AcceptedExtension(mimetype: string)
    requires FileFilter(mimetype)
    ensures var ext := FileExtension(mimetype); ext == ".png" || ext == ".jpg" || ext == ".jpeg"
    ensures '\\' !in FileExtension(mimetype)
  {
    assert mimetype == "image/png" || mimetype == "image/jpg" || mimetype == "image/jpeg";
    ImageSubtype(mimetype);
    SubtypeExtension(mimetype, mimetype[6..]);
  }

  /** A file as the upload leaves it on the request: where it was written. */
  datatype StoredFile = StoredFile(path: string)

  /** Where the disk storage writes an accepted upload: the `images`
      directory joined, with the platform's separator, to the stored name. */
  function StoredPath(separator: char, uuid: string, mimetype: string): (path: string)
    ensures |path| > 7 && path[..6] == "images" && path[6] == separator && path[7..] == StoredFilename(uuid, mimetype)
  {
    "images" + [separator] + StoredFilename(uuid, mimetype)
  }

  /** `req.file` after the upload middleware: present only when a file was
      sent and the filter accepted its type. */
  function Upload(sent: Option<string>, separator: char, uuid: string): (file: Option<StoredFile>)
    ensures file.Some? <==> sent.Some? && FileFilter(sent.value)
    ensures file.Some? ==> file.value.path == StoredPath(separator, uuid, sent.value)
  {
    if sent.Some? && FileFilter(sent.value) then Some(StoredFile(StoredPath(separator, uuid, sent.value)))
    else None
  }

  /** The JSON body of a reply. */
  datatype Body = Message(message: string) | Stored(message: string, filePath: string)

  /** How the handler ends: it throws to the error handler, or replies. */
  datatype Outcome = Throws(error: Error) | Reply(status: int, body: Body)

  const NotAuthenticated := Error("Not authenticated!", None, None, NoData)

  /** What `clearImage(filePath)` throws, if anything; it is only called
      with a truthy `oldPath`. */
  type Clearing = string -> Option<Error>

  /** The ReferenceError an ES module raises when it reads `__dirname`. */
  const DirnameUndefined := Error("__dirname is not defined", None, None, NoData)

  /** util/file.js as written: the first thing `clearImage` does is read
      `__dirname`, which an ES module does not define, so every call throws
      before anything is deleted. */
  function ClearImageAsWritten(filePath: string): (thrown: Option<Error>)
    ensures thrown.Some? && thrown.value.message == "__dirname is not defined"
    ensures !Truthy(thrown.value.code) && thrown.value.statusCode.None? && thrown.value.data == NoData
  {
    Some(DirnameUndefined)
  }

  /** `clearImage` with its directory taken from its own module URL, as
      app.js does for itself: it starts the deletion and returns normally. */
  function ClearImage(filePath: string): (thrown: Option<Error>)
    ensures thrown.None?
  {
    None
  }

  /** The replies of `/post-image`, in the order the handler decides them,
      given what `clearImage` throws on `oldPath`. */
  function PostImageReply(isAuth: bool, file: Option<StoredFile>, oldPath: Option<string>, clear: Clearing): (o: Outcome)
    ensures !isAuth ==> o == Throws(NotAuthenticated)
    ensures isAuth && file.None? ==> o == Reply(200, Message("No file provided!"))
    // A throwing clearImage ends the handler with its error.
    ensures isAuth && file.Some? && TruthyString(oldPath) && clear(oldPath.value).Some? ==>
              o == Throws(clear(oldPath.value).value)
    // Otherwise 201, with every backslash of the stored path turned into `/`.
    ensures isAuth && file.Some? && !(TruthyString(oldPath) && clear(oldPath.value).Some?) ==>
              && o == Reply(201, Stored("File stored.", ReplaceAll(file.value.path, '\\', '/')))
              && |o.body.filePath| == |file.value.path|
              && '\\' !in o.body.filePath
              && (forall i :: 0 <= i < |file.value.path| && file.value.path[i] == '\\' ==> o.body.filePath[i] == '/')
              && forall i :: 0 <= i < |file.value.path| && file.value.path[i] != '\\' ==> o.body.filePath[i] == file.value.path[i]
  {
    if !isAuth then Throws(NotAuthenticated)
    else if file.None? then Reply(200, Message("No file provided!"))
    else if TruthyString(oldPath) && clear(oldPath.value).Some? then Throws(clear(oldPath.value).value)
    else Reply(201, Stored("File stored.", ReplaceAll(file.value.path, '\\', '/')))
  }

  /** The paths `/post-image` has `clearImage` delete: `oldPath`, once, when
      the request is authenticated, carries a file and a truthy `oldPath`,
      and the call returns normally; otherwise none. */
  function Removals(isAuth: bool, file: Option<StoredFile>, oldPath: Option<string>, clear: Clearing): (paths: seq<string>)
    ensures paths != [] <==> isAuth && file.Some? && TruthyString(oldPath) && clear(oldPath.value).None?
    ensures paths != [] ==> paths == [oldPath.value]
  {
    if isAuth && file.Some? && TruthyString(oldPath) && clear(oldPath.value).None? then [oldPath.value] else []
  }

  /** The image directory as the handler changes it: the paths `clearImage`
      has removed, in order. */
  class Images {
    var removed: seq<string>

    constructor()
      ensures removed == []
    {
      removed := [];
    }

    /** The `/post-image` handler. `clearImage` is called only for an
        authenticated request that carries a file and a truthy `oldPath`,
        at most once, and removes it only when it returns normally. */
    method PostImage(isAuth: bool, file: Option<StoredFile>, oldPath: Option<string>, clear: Clearing)
      returns (o: Outcome)
      modifies this
      ensures o == PostImageReply(isAuth, file, oldPath, clear)
      ensures removed == old(removed) + Removals(isAuth, file, oldPath, clear)
    {
      if !isAuth {
        return Throws(NotAuthenticated);
      }
      if file.None? {
        return Reply(200, Message("No file provided!"));
      }
      if TruthyString(oldPath) {
        var thrown := clear(oldPath.value);
        if thrown.Some? {
          return Throws(thrown.value);
        }
        removed := removed + [oldPath.value];
      }
      o := Reply(201, Stored("File stored.", ReplaceAll(file.value.path, '\\', '/')));
    }
  }

  /** As written, replacing an image fails: an authenticated upload that
      names the image it replaces ends at the error handler as a 500 with the
      ReferenceError's message and no data, and nothing is removed. */
  lemma ClearImageBreaksUpload(file: Option<StoredFile>, oldPath: Option<string>)
    requires file.Some? && TruthyString(oldPath)
    ensures PostImageReply(true, file, oldPath, ClearImageAsWritten) == Throws(DirnameUndefined)
    ensures ErrorResponse(DirnameUndefined) == ErrorReply(500, "__dirname is not defined", NoData)
    ensures Removals(true, file, oldPath, ClearImageAsWritten) == []
  {
  }

  /** With `clearImage` fixed, the same upload is stored with 201 and the old
      image is removed, exactly once. */
  lemma UploadReplacesOldImage(file: Option<StoredFile>, oldPath: Option<string>)
    requires file.Some? && TruthyString(oldPath)
    ensures PostImageReply(true, file, oldPath, ClearImage)
              == Reply(201, Stored("File stored.", ReplaceAll(file.value.path, '\\', '/')))
    ensures Removals(true, file, oldPath, ClearImage) == [oldPath.value]
  {
  }

  /** Normalising a path joined with either separator from backslash-free
      parts gives the `/`-joined path. */
  lemma NormalisedPath(separator: char, name: string)
    requires separator == '/' || separator == '\\'
    requires '\\' !in name
    ensures ReplaceAll("images" + [separator] + name, '\\', '/') == "images/" + name
  {
    NormalisedJoin("images", separator, name);
    assert "images" + ['/'] + name == "images/" + name;
  }

  /** The same for any backslash-free directory. */
  lemma NormalisedJoin(dir: string, separator: char, name: string)
    requires separator == '/' || separator == '\\'
    requires '\\' !in dir && '\\' !in name
    ensures ReplaceAll(dir + [separator] + name, '\\', '/') == dir + ['/'] + name
  {
    ReplaceAllConcat(dir + [separator], name, '\\', '/');
    ReplaceAllConcat(dir, [separator], '\\', '/');
    ReplaceAllClean(dir, '\\', '/');
    ReplaceAllClean(name, '\\', '/');
    assert ReplaceAll([separator], '\\', '/') == ['/'];
  }

  /** A name made of backslash-free parts is backslash-free. */
  lemma ConcatClean(a: string, b: string)
    requires '\\' !in a && '\\' !in b
    ensures '\\' !in a + b
  {
    forall i | 0 <= i < |a + b| ensures (a + b)[i] != '\\' {
      if i >= |a| {
        assert (a + b)[i] == b[i - |a|];
      }
    }
  }

  /** For an accepted upload the reply's `filePath` is `images/<stored name>`
      whichever separator the platform joined the path with, as long as the
      UUID holds no backslash. */
  lemma StoredReplyPath(separator: char, uuid: string, mimetype: string, oldPath: Option<string>)
    requires separator == '/' || separator == '\\'
    requires '\\' !in uuid
    requires FileFilter(mimetype)
    ensures var o := PostImageReply(true, Upload(Some(mimetype), separator, uuid), oldPath, ClearImage);
            o == Reply(201, Stored("File stored.", "images/" + StoredFilename(uuid, mimetype)))
  {
    AcceptedExtension(mimetype);
    ConcatClean(uuid, FileExtension(mimetype));
    NormalisedPath(separator, StoredFilename(uuid, mimetype));
  }

  /** An upload of any other type reaches the handler as no file at all. */
  lemma RejectedTypeIsNoFile(mimetype: string, separator: char, uuid: string, oldPath: Option<string>, clear: Clearing)
    requires mimetype !in AcceptedTypes
    ensures PostImageReply(true, Upload(Some(mimetype), separator, uuid), oldPath, clear) == Reply(200, Message("No file provided!"))
    ensures Removals(true, Upload(Some(mimetype), separator, uuid), oldPath, clear) == []
  {
  }

  /** The error handler's status: the error's truthy `statusCode`, else 500. */
  function ErrorStatus(e: Error): (status: int)
    ensures Truthy(e.statusCode) ==> status == e.statusCode.value
    ensures !Truthy(e.statusCode) ==> status == 500
    ensures status != 0
  {
    if Truthy(e.statusCode) then e.statusCode.value else 500
  }

  /** The error handler's reply: that status with `{ message, data }`. */
  datatype ErrorReply = ErrorReply(status: int, message: string, data: ErrorData)

  function ErrorResponse(e: Error): (r: ErrorReply)
    ensures r.status == ErrorStatus(e) && r.message == e.message && r.data == e.data
  {
    ErrorReply(ErrorStatus(e), e.message, e.data)
  }

  /** An unauthenticated upload ends as a 500 reply "Not authenticated!",
      since the thrown error sets no statusCode, and removes nothing. */
  lemma UnauthenticatedUploadIs500(file: Option<StoredFile>, oldPath: Option<string>, clear: Clearing)
    ensures PostImageReply(false, file, oldPath, clear).Throws?
    ensures ErrorResponse(PostImageReply(false, file, oldPath, clear).error) == ErrorReply(500, "Not authenticated!", NoData)
    ensures Removals(false, file, oldPath, clear) == []
  {
  }
}
