/** The image API views: listing and uploading a user's images, and fetching, replacing and
    deleting one of them, each over the user's `images` folder in the file store. */
module Views {
  import opened Common
  import opened Paths
  import opened Files
  import opened Users

  const HTTP_200_OK: int := 200
  const HTTP_201_CREATED: int := 201
  const HTTP_400_BAD_REQUEST: int := 400
  const HTTP_404_NOT_FOUND: int := 404

  const ImageNotGiven := "Image not given, set the field name to image"
  const InvalidImage := "Give a valid image file { jpg, jpeg, gif, png}"
  const ImageExists := "Image already exists, to overwrite send a overwrite=true as parameter"
  const ImageUploaded := "Image successfully uploaded"
  const ImageNotFound := "Image not found"
  const ImageModified := "Image successfully modified"
  const ImageDeleted := "Image successfully deleted"

  /** An uploaded file as the request hands it over: its name and the chunks of its content. */
  datatype UploadedFile = UploadedFile(name: string, chunks: seq<Bytes>)

  /** A response body: a message, the list view's payload, or raw bytes sent as an image
      attachment under the given file name. */
  datatype Body =
    | Message(text: string)
    | ImageList(username: string, images: set<string>)
    | Attachment(content: Bytes, filename: string)

  /** A response, or an exception the view does not catch (the framework answers it with a server error). */
  datatype Response = Response(status: int, body: Body) | Unhandled(error: PyError)

  /** The store a request leaves behind and the response it gets. */
  datatype Step = Step(store: Store, response: Response)

  /** `valid_image_extension`: some allowed extension is a suffix of the name, case as given. */
  function ValidImageExtension(fileName: string, extensions: seq<string>): (r: bool)
    ensures r <==> exists i :: 0 <= i < |extensions| && IsSuffix(extensions[i], fileName)
  {
    if extensions == [] then false
    else IsSuffix(extensions[0], fileName) || ValidImageExtension(fileName, extensions[1..])
  }

  function LowerChar(c: char): char
  {
    if 'A' <= c <= 'Z' then (c as int + 32) as char else c
  }

  /** `str.lower` on ASCII letters. */
  function Lower(s: string): (r: string)
    ensures |r| == |s|
  {
    seq(|s|, i requires 0 <= i < |s| => LowerChar(s[i]))
  }

  /** `s` spells the lower-case word `word` in any mix of cases. */
  predicate SpellsIgnoringCase(s: string, word: string)
  {
    |s| == |word| && forall i :: 0 <= i < |s| ==> LowerChar(s[i]) == word[i]
  }

  /** The `overwrite` query parameter, lower-cased and read as JSON: `true`/`false` in any case,
      false when absent, None for any other text, taken as the decoder raising. */
  function ParseOverwrite(overwrite: Option<string>): (r: Option<bool>)
    ensures overwrite.None? ==> r == Some(false)
    ensures r == Some(true) <==> overwrite.Some? && SpellsIgnoringCase(overwrite.value, "true")
    ensures r == Some(false) <==> overwrite.None? || SpellsIgnoringCase(overwrite.value, "false")
  {
    var text := Lower(overwrite.GetOr("false"));
    if text == "true" then Some(true)
    else if text == "false" then Some(false)
    else None
  }

  /** The image folder never ends in a separator, so names join to it as direct entries. */
  lemma ImageFolderIsDirPrefix(u: User)
    ensures IsDirPrefix(u.ImageFolder())
  {
    assert IsComponent("images");
    JoinComponent(u.UserFolder(), "images");
  }

  /** GET on the list view: the username with exactly the entry names of the image folder;
      `os.listdir` raises when that folder is missing or is a file. */
  function ListImages(s: Store, u: User): (r: Response)
    ensures u.ImageFolder() in s.dirs ==>
              && r.Response? && r.status == HTTP_200_OK && r.body.ImageList? && r.body.username == u.username
              && forall n :: n in r.body.images <==> IsComponent(n) && Join(u.ImageFolder(), n) in s.dirs + s.files.Keys
    ensures u.ImageFolder() !in s.dirs ==> r.Unhandled?
  {
    var folder := u.ImageFolder();
    if folder in s.dirs then
      ImageFolderIsDirPrefix(u);
      ListDirAll(s, folder);
      Response(HTTP_200_OK, ImageList(u.username, ListDir(s, folder)))
    else if folder in s.files then Unhandled(NotADirectoryError)
    else Unhandled(FileNotFoundError)
  }

  /** `os.path.join(image_folder, name)`. */
  function ImagePath(u: User, name: string): Path
  {
    Join(u.ImageFolder(), name)
  }

  /** POST on the list view. Checks run in order: no image field, a disallowed extension, an
      `overwrite` value that is not a JSON boolean, an existing file without overwrite; only then
      is the file written, and only that file changes. */
  function Upload(s: Store, u: User, extensions: seq<string>, image: Option<UploadedFile>, overwrite: Option<string>)
    : (r: Step)
    ensures image.None? ==> r == Step(s, Response(HTTP_400_BAD_REQUEST, Message(ImageNotGiven)))
    ensures image.Some? && !ValidImageExtension(image.value.name, extensions) ==>
              r == Step(s, Response(HTTP_400_BAD_REQUEST, Message(InvalidImage)))
    ensures image.Some? && ValidImageExtension(image.value.name, extensions) && ParseOverwrite(overwrite).None? ==>
              r == Step(s, Unhandled(ValueError))
    ensures image.Some? && ValidImageExtension(image.value.name, extensions) && ParseOverwrite(overwrite) == Some(false)
            && ImagePath(u, image.value.name) in s.files ==>
              r == Step(s, Response(HTTP_400_BAD_REQUEST, Message(ImageExists)))
    ensures r.response != Response(HTTP_201_CREATED, Message(ImageUploaded)) ==> r.store == s
    ensures r.response == Response(HTTP_201_CREATED, Message(ImageUploaded)) ==>
              && image.Some? && ValidImageExtension(image.value.name, extensions)
              && r.store == Store(s.dirs, s.files[ImagePath(u, image.value.name) := Concat(image.value.chunks)])
  {
    if image.None? then Step(s, Response(HTTP_400_BAD_REQUEST, Message(ImageNotGiven)))
    else if !ValidImageExtension(image.value.name, extensions) then
      Step(s, Response(HTTP_400_BAD_REQUEST, Message(InvalidImage)))
    else match ParseOverwrite(overwrite)
      case None => Step(s, Unhandled(ValueError))
      case Some(replace) =>
        var path := ImagePath(u, image.value.name);
        if path in s.files && !replace then Step(s, Response(HTTP_400_BAD_REQUEST, Message(ImageExists)))
        else match OpenError(s, path)
          case Some(e) => Step(s, Unhandled(e))
          case None =>
            Step(Store(s.dirs, s.files[path := Concat(image.value.chunks)]), Response(HTTP_201_CREATED, Message(ImageUploaded)))
  }

  /** An upload that passes every check, of a plain file name that is not a folder in an existing
      image folder, succeeds, except that `.` and `..` name folders and cannot be opened as files. */
  lemma UploadSucceeds(s: Store, u: User, extensions: seq<string>, file: UploadedFile, overwrite: Option<string>)
    requires Consistent(s) && u.ImageFolder() in s.dirs
    requires IsComponent(file.name) && ImagePath(u, file.name) !in s.dirs
    requires ValidImageExtension(file.name, extensions) && ParseOverwrite(overwrite).Some?
    requires ImagePath(u, file.name) !in s.files || ParseOverwrite(overwrite) == Some(true)
    ensures Upload(s, u, extensions, Some(file), overwrite).response ==
              if IsDotName(file.name) then Unhandled(IsADirectoryError)
              else Response(HTTP_201_CREATED, Message(ImageUploaded))
  {
    ImageFolderIsDirPrefix(u);
    DirnameOfJoin(u.ImageFolder(), file.name);
    BasenameOfJoin(u.ImageFolder(), file.name);
    LookupDir(s, u.ImageFolder());
  }

  /** No file is named `.` or `..`: GET, PATCH and DELETE on those names answer 404 and change nothing. */
  lemma DotNamesNotFound(s: Store, u: User, fileName: string, image: Option<UploadedFile>)
    requires Consistent(s) && IsDotName(fileName)
    ensures FetchImage(s, u, fileName) == Response(HTTP_404_NOT_FOUND, Message(ImageNotFound))
    ensures Patch(s, u, fileName, image) == Step(s, Response(HTTP_404_NOT_FOUND, Message(ImageNotFound)))
    ensures Delete(s, u, fileName) == Step(s, Response(HTTP_404_NOT_FOUND, Message(ImageNotFound)))
  {
    ImageFolderIsDirPrefix(u);
    BasenameOfJoin(u.ImageFolder(), fileName);
  }

  /** GET on one image: its bytes as an attachment named after it, or 404. */
  function FetchImage(s: Store, u: User, fileName: string): (r: Response)
    ensures ImagePath(u, fileName) !in s.files ==> r == Response(HTTP_404_NOT_FOUND, Message(ImageNotFound))
    ensures ImagePath(u, fileName) in s.files ==>
              r == Response(HTTP_200_OK, Attachment(s.files[ImagePath(u, fileName)], fileName))
  {
    var path := ImagePath(u, fileName);
    if path !in s.files then Response(HTTP_404_NOT_FOUND, Message(ImageNotFound))
    else Response(HTTP_200_OK, Attachment(s.files[path], fileName))
  }

  /** PATCH on one image: 404 for a missing file; a missing image field raises; otherwise the file
      is rewritten with the new chunks, without any extension check. */
  function Patch(s: Store, u: User, fileName: string, image: Option<UploadedFile>): (r: Step)
    ensures ImagePath(u, fileName) !in s.files ==> r == Step(s, Response(HTTP_404_NOT_FOUND, Message(ImageNotFound)))
    ensures ImagePath(u, fileName) in s.files && image.None? ==> r == Step(s, Unhandled(KeyError))
    ensures r.response != Response(HTTP_201_CREATED, Message(ImageModified)) ==> r.store == s
    ensures r.response == Response(HTTP_201_CREATED, Message(ImageModified)) ==>
              && ImagePath(u, fileName) in s.files && image.Some?
              && r.store == Store(s.dirs, s.files[ImagePath(u, fileName) := Concat(image.value.chunks)])
  {
    var path := ImagePath(u, fileName);
    if path !in s.files then Step(s, Response(HTTP_404_NOT_FOUND, Message(ImageNotFound)))
    else if image.None? then Step(s, Unhandled(KeyError))
    else match OpenError(s, path)
      case Some(e) => Step(s, Unhandled(e))
      case None =>
        Step(Store(s.dirs, s.files[path := Concat(image.value.chunks)]), Response(HTTP_201_CREATED, Message(ImageModified)))
  }

  /** In a consistent store a PATCH with an image on an existing file always succeeds. */
  lemma PatchExistingSucceeds(s: Store, u: User, fileName: string, file: UploadedFile)
    requires Consistent(s) && ImagePath(u, fileName) in s.files
    ensures Patch(s, u, fileName, Some(file)).response == Response(HTTP_201_CREATED, Message(ImageModified))
  {
    OpenExistingFile(s, ImagePath(u, fileName));
  }

  /** DELETE on one image: 404 for a missing file, otherwise that file alone is removed. */
  function Delete(s: Store, u: User, fileName: string): (r: Step)
    ensures ImagePath(u, fileName) !in s.files ==> r == Step(s, Response(HTTP_404_NOT_FOUND, Message(ImageNotFound)))
    ensures ImagePath(u, fileName) in s.files ==>
              r == Step(Store(s.dirs, s.files - {ImagePath(u, fileName)}), Response(HTTP_200_OK, Message(ImageDeleted)))
  {
    var path := ImagePath(u, fileName);
    if path !in s.files then Step(s, Response(HTTP_404_NOT_FOUND, Message(ImageNotFound)))
    else Step(Store(s.dirs, s.files - {path}), Response(HTTP_200_OK, Message(ImageDeleted)))
  }

  /** `with open(path, 'wb') as destination: ...`: opening truncates, then the chunks are written. */
  method SaveChunks(fs: FileStore, path: Path, chunks: seq<Bytes>) returns (e: Option<PyError>)
    requires fs.Valid()
    modifies fs
    ensures fs.Valid() && fs.dirs == old(fs.dirs)
    ensures e == OpenError(old(fs.State()), path)
    ensures e.None? ==> fs.files == old(fs.files)[path := Concat(chunks)]
    ensures e.Some? ==> fs.files == old(fs.files)
  {
    e := fs.OpenWrite(path);
    if e.None? {
      WriteChunks(fs, path, chunks, old(fs.files));
    }
  }

  /** `for chunk in image.chunks(): destination.write(chunk)` on a file just truncated in `before`,
      the files as they were before opening. */
  method WriteChunks(fs: FileStore, path: Path, chunks: seq<Bytes>, ghost before: map<Path, Bytes>)
    requires fs.Valid() && fs.files == before[path := []]
    modifies fs
    ensures fs.Valid() && fs.dirs == old(fs.dirs)
    ensures fs.files == before[path := Concat(chunks)]
  {
    var i := 0;
    while i < |chunks|
      invariant 0 <= i <= |chunks|
      invariant fs.Valid() && fs.dirs == old(fs.dirs)
      invariant fs.files == before[path := Concat(chunks[..i])]
    {
      ConcatSnoc(chunks[..i], chunks[i]);
      assert chunks[..i + 1] == chunks[..i] + [chunks[i]];
      UpdateTwice(before, path, Concat(chunks[..i]), Concat(chunks[..i + 1]));
      fs.Write(path, chunks[i]);
      i := i + 1;
    }
    assert chunks[..i] == chunks;
  }

  /** POST on the list view, writing the upload chunk by chunk. */
  method UploadImage(fs: FileStore, u: User, extensions: seq<string>, image: Option<UploadedFile>, overwrite: Option<string>)
    returns (r: Response)
    requires fs.Valid()
    modifies fs
    ensures fs.Valid()
    ensures Step(fs.State(), r) == Upload(old(fs.State()), u, extensions, image, overwrite)
  {
    if image.None? {
      return Response(HTTP_400_BAD_REQUEST, Message(ImageNotGiven));
    }
    var file := image.value;
    if !ValidImageExtension(file.name, extensions) {
      return Response(HTTP_400_BAD_REQUEST, Message(InvalidImage));
    }
    var replace := ParseOverwrite(overwrite);
    if replace.None? {
      return Unhandled(ValueError);
    }
    var path := ImagePath(u, file.name);
    if IsFile(fs.State(), path) && !replace.value {
      return Response(HTTP_400_BAD_REQUEST, Message(ImageExists));
    }
    var e := SaveChunks(fs, path, file.chunks);
    if e.Some? {
      return Unhandled(e.value);
    }
    r := Response(HTTP_201_CREATED, Message(ImageUploaded));
  }

  /** PATCH on one image, rewriting it chunk by chunk. */
  method PatchImage(fs: FileStore, u: User, fileName: string, image: Option<UploadedFile>) returns (r: Response)
    requires fs.Valid()
    modifies fs
    ensures fs.Valid()
    ensures Step(fs.State(), r) == Patch(old(fs.State()), u, fileName, image)
  {
    var path := ImagePath(u, fileName);
    if !IsFile(fs.State(), path) {
      return Response(HTTP_404_NOT_FOUND, Message(ImageNotFound));
    }
    if image.None? {
      return Unhandled(KeyError);
    }
    OpenExistingFile(fs.State(), path);
    var _ := SaveChunks(fs, path, image.value.chunks);
    r := Response(HTTP_201_CREATED, Message(ImageModified));
  }

  /** DELETE on one image. */
  method DeleteImage(fs: FileStore, u: User, fileName: string) returns (r: Response)
    requires fs.Valid()
    modifies fs
    ensures fs.Valid()
    ensures Step(fs.State(), r) == Delete(old(fs.State()), u, fileName)
  {
    var path := ImagePath(u, fileName);
    if !IsFile(fs.State(), path) {
      return Response(HTTP_404_NOT_FOUND, Message(ImageNotFound));
    }
    fs.Remove(path);
    r := Response(HTTP_200_OK, Message(ImageDeleted));
  }

  /** Round trip: after a successful upload, fetching the name returns exactly the uploaded bytes. */
  lemma UploadThenFetch(s: Store, u: User, extensions: seq<string>, file: UploadedFile, overwrite: Option<string>)
    requires Upload(s, u, extensions, Some(file), overwrite).response == Response(HTTP_201_CREATED, Message(ImageUploaded))
    ensures FetchImage(Upload(s, u, extensions, Some(file), overwrite).store, u, file.name)
            == Response(HTTP_200_OK, Attachment(Concat(file.chunks), file.name))
  {
  }

  /** Without `overwrite`, a second upload under the same name is refused and the first content stays. */
  lemma SecondUploadRefused(s: Store, u: User, extensions: seq<string>, first: UploadedFile, second: UploadedFile)
    requires Upload(s, u, extensions, Some(first), None).response == Response(HTTP_201_CREATED, Message(ImageUploaded))
    requires second.name == first.name
    ensures var s1 := Upload(s, u, extensions, Some(first), None).store;
            && Upload(s1, u, extensions, Some(second), None) == Step(s1, Response(HTTP_400_BAD_REQUEST, Message(ImageExists)))
            && FetchImage(s1, u, first.name) == Response(HTTP_200_OK, Attachment(Concat(first.chunks), first.name))
  {
  }

  /** After a DELETE the name is gone: fetching it is a 404 and it no longer appears in the listing. */
  lemma DeleteThenGone(s: Store, u: User, fileName: string)
    requires Consistent(s) && u.ImageFolder() in s.dirs && ImagePath(u, fileName) in s.files
    ensures var s1 := Delete(s, u, fileName).store;
            && FetchImage(s1, u, fileName) == Response(HTTP_404_NOT_FOUND, Message(ImageNotFound))
            && (IsComponent(fileName) ==> fileName in ListImages(s, u).body.images)
            && fileName !in ListImages(s1, u).body.images
  {
    var s1 := Delete(s, u, fileName).store;
    assert ImagePath(u, fileName) !in s1.dirs + s1.files.Keys;
  }

  /** After a successful upload of a plain file name, the listing shows it. */
  lemma UploadThenListed(s: Store, u: User, extensions: seq<string>, file: UploadedFile, overwrite: Option<string>)
    requires u.ImageFolder() in s.dirs && IsComponent(file.name)
    requires Upload(s, u, extensions, Some(file), overwrite).response == Response(HTTP_201_CREATED, Message(ImageUploaded))
    ensures file.name in ListImages(Upload(s, u, extensions, Some(file), overwrite).store, u).body.images
  {
  }

  /** The path an upload of a plain file name writes lies inside the uploader's user folder. */
  lemma ImagePathWithin(u: User, name: string)
    requires u.WellFormed() && IsComponent(name)
    ensures Within(ImagePath(u, name), u.UserFolder())
  {
    UserPaths(u);
    ImageFolderIsDirPrefix(u);
    JoinPlain(u.ImageFolder(), name);
    var folder := u.UserFolder();
    assert ImagePath(u, name) == folder + "/images/" + name;
  }

  /** An upload by one validated user never writes a path inside another user's folder. */
  lemma UploadStaysInOwnFolder(u1: User, u2: User, name: string, p: Path)
    requires u1.WellFormed() && u2.WellFormed() && u1.baseDir == u2.baseDir && u1.username != u2.username
    requires IsComponent(name) && Within(p, u2.UserFolder())
    ensures p != ImagePath(u1, name)
  {
    ImagePathWithin(u1, name);
    if p == ImagePath(u1, name) {
      UserTreesDisjoint(u1, u2, p);
    }
  }
}
