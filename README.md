# Image-API: a Dafny model of the user store, the image views and the URL table

Image-API keeps all of its state in the file system. A user is a folder
`<BASE_DIR>/files/<username>` holding an `images` folder and a `.user` file with the hex SHA-224
digest of the password. The HTTP views list, upload, fetch, replace and delete the files of that
`images` folder. Two URL patterns decide which view a request path reaches.

The model has six modules:

- `Common` (common.dfy): `Option`, bytes, and `Concat`, the content a sequence of written chunks leaves.
- `Paths` (paths.dfy): `os.path.join` and `os.path.dirname` on POSIX path strings, with the lemmas
  that say a component joined to a directory is its direct child and that sibling subtrees are disjoint.
- `Files` (filestore.dfy): the file store.
  - `Store` is a value: a set of directory paths and a map from file paths to bytes. A consistent
    store is a tree as the disk is one: every file and every directory other than a root sits in a
    directory, and no file is named `.` or `..`.
  - A path is looked up from the top: the first ancestor that is a file raises `NotADirectoryError`,
    and the first one that is missing raises `FileNotFoundError` (`Files.LookupError`).
  - `FileStore` is a class whose `dirs` and `files` fields are changed in place.
  - `Mkdir` and `OpenWrite` return the POSIX error the Python call raises, if any: `FileExistsError`,
    `FileNotFoundError` (a missing ancestor), `NotADirectoryError` (an ancestor is a file), `IsADirectoryError`.
  - `Write` and `Remove` act only on an existing file and cannot fail. `Write` is called only on the
    file just opened (`main_app/views.py:66-69`). `Remove` runs only after the view checks
    `os.path.isfile` (`main_app/views.py:77`).
- `Users` (user.dfy): `file_system_jwt/user.py`.
  - Path derivation and the read-only queries (`is_valid`, `authenticate`, `get_user`, module
    `authenticate`) are functions over a `Store`.
  - `create` and `set_password` are methods on a `FileStore`.
  - The digest is a parameter `h: Hasher`, a function from strings to 56 lower-case hex digits.
- `Views` (views.dfy): `main_app/views.py`.
  - GET on the list view and on one image are functions over a `Store`.
  - Upload, PATCH and DELETE are first specified as functions `Upload`, `Patch` and `Delete`. Each
    returns the new store and the response.
  - They are then implemented as methods on a `FileStore`: `UploadImage`, `PatchImage` and
    `DeleteImage`. Upload and PATCH write the chunks one by one in a loop, and each method is proved
    equal to its specification function.
  - A `Response` is a status code with a body, or an exception the view does not catch.
- `Urls` (urls.dfy): `main_app/urls.py`, as a function from a path to the view it reaches.

Settings are parameters: `BASE_DIR` is the `baseDir` of a `User` and `VALID_IMAGE_EXTENSIONS` is the
`extensions` argument. JWT authentication is taken as given: every view receives an existing `User`.

Three behaviours of the code worth knowing:

- `User.create` does not refuse an existing user. It skips the `mkdir` calls for folders that already
  exist and rewrites `.user`. Only the command-line tool (`main_app/management/commands/newuser.py:87-89`)
  checks for a taken name.
- A wrong password and an unknown username are not refused alike. The module-level `authenticate`
  raises `AttributeError` for an unknown username (see Findings).
- A path's trailing newline is accepted. The single-image pattern ends in `$`, and Python's `$` also
  matches just before one final newline. So `image/cat.png\n` reaches the image view with
  `file_name = "cat.png"` (`Urls.TrailingNewlineRouted`).

## Model

| member | source | states |
|---|---|---|
| Common.ConcatSnoc | main_app/views.py:68-69 | writing one more chunk extends the file by exactly that chunk |
| Common.ConcatChunkAt | main_app/views.py:68-69 | each written chunk ends up in the file, in order, at the offset the earlier chunks give |
| Paths.BasenameOfJoin | file_system_jwt/user.py:14-15 | the last component of a component joined to a directory is that component |
| Paths.JoinChild | file_system_jwt/user.py:14-15 | a component joined to a directory is `d/n`, and its parent directory is `d` |
| Paths.EntryOfJoin | main_app/views.py:50 | a path is an entry of `d` named `n` exactly when `n` is a single component and the path is `join(d, n)` |
| Paths.SiblingsDisjoint | file_system_jwt/user.py:14 | no path lies below two different components of the same directory |
| Files.LookupError | file_system_jwt/user.py:29 | looking up a path as a directory succeeds only for a directory, and otherwise raises `NotADirectoryError` or `FileNotFoundError`, as the first failing ancestor decides |
| Files.LookupDir | file_system_jwt/user.py:29 | in a consistent store a path resolves exactly when it is a directory |
| Files.LookupFile | file_system_jwt/user.py:29 | looking up a file as a directory raises `NotADirectoryError` |
| Files.MkdirInDir | file_system_jwt/user.py:29 | `mkdir` of a new entry in an existing directory, named other than `.` or `..`, succeeds |
| Files.OpenInDir | main_app/views.py:66 | `open(p, 'wb')` in an existing directory succeeds unless `p` is a directory or is named `.` or `..` |
| Files.OpenExistingFile | main_app/views.py:89 | in a consistent store an existing file can always be opened for writing |
| Files.ListDirExact | main_app/views.py:50 | `os.listdir(d)` holds `n` exactly when `n` is a component and `join(d, n)` exists |
| Files.FileStore.Mkdir | file_system_jwt/user.py:29 | a successful `mkdir` adds exactly that directory; a failed one changes nothing and reports the error |
| Files.FileStore.OpenWrite | main_app/views.py:66 | opening for writing creates or truncates the file to empty, or raises and changes nothing |
| Files.FileStore.Write | main_app/views.py:69 | a write appends the chunk to that file and nothing else changes |
| Files.FileStore.WriteFile | file_system_jwt/user.py:50-51 | opening for writing and writing once leaves the file holding exactly the content, or raises the open error and changes nothing |
| Files.FileStore.Remove | main_app/views.py:94 | `os.remove` deletes that file alone |
| Users.UserPaths | file_system_jwt/user.py:12-15 | for a validated name the user folder is `<base>/files/<name>`, the image folder `<user folder>/images`, the credential file `<user folder>/.user` |
| Users.FilesFolderParent | file_system_jwt/user.py:14 | `<base>/files` is a direct child of the base directory |
| Users.UserFolderParent | file_system_jwt/user.py:14 | the user folder is the entry `<name>` of `<base>/files` |
| Users.ImageFolderParent | file_system_jwt/user.py:15 | the image folder is the entry `images` of the user folder, a name that is not `.` or `..` |
| Users.CredentialFileParent | file_system_jwt/user.py:50 | `.user` is an entry of the user folder, a name that is not `.` or `..` |
| Users.DistinctUsersDistinctFolders | file_system_jwt/user.py:10-15 | distinct validated usernames get distinct user folders and distinct image folders |
| Users.UserTreesDisjoint | file_system_jwt/user.py:10-15 | no path lies inside the folders of two different validated users |
| Users.DotNamesPassValidator | file_system_jwt/user.py:10 | the validator admits `.` and `..`, which `User.WellFormed` leaves out |
| Users.UnvalidatedNameCollides | file_system_jwt/user.py:14-15 | without the validator, user `a/images` would own user `a`'s image folder |
| Users.Encode | file_system_jwt/user.py:40 | the encoded digest is 56 bytes long |
| Users.EncodeInjective | file_system_jwt/user.py:42 | comparing encoded digests compares the digests |
| Users.Authenticate | file_system_jwt/user.py:37-44 | false for a missing user; true exactly when `.user` holds the encoded digest of the password; raises exactly when the user exists and `.user` is not a file |
| Users.AuthenticateAfterSetPassword | file_system_jwt/user.py:37-53 | once `.user` holds the digest of `p`, password `q` is accepted exactly when `h(q) == h(p)` |
| Users.SetPassword | file_system_jwt/user.py:46-53 | false exactly for a missing user, and then nothing is written; on success `.user` is replaced wholesale by the encoded digest; a raise carries the open error and changes nothing |
| Users.SetPasswordCannotMissParent | file_system_jwt/user.py:48-50 | for an existing validated user, opening `.user` cannot fail unless `.user` is a directory |
| Users.Create | file_system_jwt/user.py:23-35 | no `password` key gives false and no change; only the two folders may be added; true means both folders exist and `.user` holds the digest; a missing `<base>/files` changes nothing and raises `NotADirectoryError` exactly when looking it up does (a file higher up the path), and otherwise gives false; an existing user is rewritten and gives true; `FileNotFoundError` never escapes |
| Users.EnsureFolder | file_system_jwt/user.py:28-31 | an existing folder is left alone; otherwise `mkdir` runs with its error |
| Users.EnsureUserFolders | file_system_jwt/user.py:28-31 | only the user folder and the image folder may be added; success means both exist; without `<base>/files` nothing changes and the error is that of looking up `<base>/files`; with `<base>/files` or the user folder present both folders can be made |
| Users.MkdirUserFolder | file_system_jwt/user.py:28-29 | creating a missing user folder raises what looking up `<base>/files` raises: nothing when it is a directory, `NotADirectoryError` when it is a file, and when it is missing `NotADirectoryError` if a file stands higher up and `FileNotFoundError` otherwise |
| Users.MissingFilesFolder | file_system_jwt/user.py:28-29 | without `<base>/files` there is no user folder, and making one fails as looking up `<base>/files` does |
| Users.BaseDirIsAFile | file_system_jwt/user.py:29 | when the base directory is a regular file, looking up `<base>/files` raises `NotADirectoryError`, so `create` raises |
| Users.MkdirImageFolder | file_system_jwt/user.py:30-31 | once the user folder exists, creating the image folder succeeds |
| Users.IsValid | file_system_jwt/user.py:17-21 | a user exists exactly when its folder is a directory |
| Users.GetUser | file_system_jwt/user.py:56-60 | a handle is returned exactly when the user folder is a directory |
| Users.AuthenticateCredentials | file_system_jwt/user.py:62-68 | a missing key gives None; an unknown username raises `AttributeError`; the user is returned only with both keys and an accepted password |
| Users.UnknownUserRaises | file_system_jwt/user.py:65-66 | with both keys and an unknown username, the as-written function raises `AttributeError` |
| Users.Login | file_system_jwt/user.py:62-68 | corrected: the user exactly when both keys are present and the password is accepted; an unknown user gives None; a raise happens only for an existing user without a `.user` file |
| Users.LoginDiffersOnlyForUnknownUsers | file_system_jwt/user.py:62-68 | the corrected function gives None for an unknown user and otherwise agrees with the code |
| Users.LoginAfterSetPassword | file_system_jwt/user.py:46-68 | after `.user` holds the digest of `p`, logging in with `q` yields the user exactly when `h(q) == h(p)` |
| Views.ValidImageExtension | main_app/views.py:20-21 | true exactly when some allowed extension is a case-sensitive suffix of the name; false for an empty list |
| Views.ParseOverwrite | main_app/views.py:60 | absent means false; `true` and `false` in any mix of cases give true and false; any other text raises |
| Views.ImageFolderIsDirPrefix | file_system_jwt/user.py:15 | the image folder never ends in a separator, so names join to it as direct entries |
| Views.ListImages | main_app/views.py:48-51 | GET returns 200 with the username and exactly the names of the image folder's entries; a missing image folder raises |
| Views.Upload | main_app/views.py:52-70 | checks run in order: no image, 400; bad extension, 400; bad overwrite, raises; existing file without overwrite, 400; every rejection leaves the store unchanged; success is 201 and only the target file changes, to the concatenated chunks |
| Views.UploadSucceeds | main_app/views.py:58-70 | an upload that passes the checks, of a plain file name that is not a folder in an existing image folder, succeeds, except that `.` and `..` raise `IsADirectoryError` |
| Views.DotNamesNotFound | main_app/views.py:76-78 | GET, PATCH and DELETE on `.` or `..` answer 404 and change nothing |
| Views.FetchImage | main_app/views.py:76-84 | 404 for a name that is not a file; otherwise 200 with exactly the stored bytes as an attachment named `file_name` |
| Views.Patch | main_app/views.py:76-92 | 404 and no change for a missing file; no image field raises and changes nothing; success is 201 with the file rewritten to the new chunks, with no extension check |
| Views.PatchExistingSucceeds | main_app/views.py:87-92 | PATCH with an image on an existing file always succeeds |
| Views.Delete | main_app/views.py:76-95 | 404 and no change for a missing file; otherwise 200 with that file alone removed |
| Views.SaveChunks | main_app/views.py:66-69 | opening then writing leaves the file holding the concatenated chunks, or raises the open error with no change |
| Views.WriteChunks | main_app/views.py:68-69 | the chunk loop leaves the truncated file holding exactly the concatenation of the chunks, and nothing else changes |
| Views.UploadImage | main_app/views.py:52-70 | the POST view leaves the store and response that `Upload` specifies |
| Views.PatchImage | main_app/views.py:87-92 | the PATCH view leaves the store and response that `Patch` specifies |
| Views.DeleteImage | main_app/views.py:93-95 | the DELETE view leaves the store and response that `Delete` specifies |
| Views.UploadThenFetch | main_app/views.py:66-84 | after a successful upload, GET on the name returns exactly the uploaded bytes |
| Views.SecondUploadRefused | main_app/views.py:62-65 | without overwrite, a second upload under the same name is refused and the first content stays |
| Views.DeleteThenGone | main_app/views.py:93-95 | after a DELETE, GET on the name is 404 and the name leaves the listing |
| Views.UploadThenListed | main_app/views.py:48-70 | after a successful upload of a plain name, the listing shows it |
| Views.ImagePathWithin | main_app/views.py:61 | an uploaded plain file name is written inside the uploader's user folder |
| Views.UploadStaysInOwnFolder | main_app/views.py:61 | one validated user's upload never writes inside another user's folder |
| Urls.MatchesImageList | main_app/urls.py:5 | `^images` under a search anchored at the start: the path begins with `images`, with anything after it |
| Urls.MatchImage | main_app/urls.py:6 | `^image/(?P<file_name>[A-Za-z_0-9.]+)$`: the captured name is the greedy run of class characters after `image/`, present only when the path ends there or with one final newline |
| Urls.NameSpan | main_app/urls.py:6 | the greedy run of `[A-Za-z_0-9.]` characters at the start of the text |
| Urls.Resolve | main_app/urls.py:4-7 | the list view is reached exactly when the path starts with `images` |
| Urls.PatternsDisjoint | main_app/urls.py:5-6 | no path matches both patterns |
| Urls.ResolveImageView | main_app/urls.py:6 | the image view with `file_name = n` is reached exactly when `n` is a non-empty run of `[A-Za-z_0-9.]` and the path is `image/n`, optionally with one trailing newline |
| Urls.NameRouted | main_app/urls.py:6 | `image/n`, with or without one trailing newline, reaches the image view with `n` for every routable name `n` |
| Urls.RoutedName | main_app/urls.py:6 | whatever reaches the image view is `image/` and a routable name, with at most one newline after |
| Urls.NameSpanOfName | main_app/urls.py:6 | the greedy run over a name stops exactly at the name's end |
| Urls.ImageListExamples | main_app/urls.py:5 | `images`, `images/x` and `imagesfoo` all reach the list view |
| Urls.TrailingNewlineRouted | main_app/urls.py:6 | `image/cat.png` followed by a newline reaches the image view with `cat.png` |
| Urls.ParentNameRouted | main_app/urls.py:6 | `image/..` reaches the image view with `..` |
| Urls.SubPathRefused | main_app/urls.py:6 | a name with `/` reaches no view |
| Urls.EmptyNameRefused | main_app/urls.py:6 | `image/` reaches no view |
| Urls.RefusedName | main_app/urls.py:6 | `image/` followed by text that is not a name, plus at most one newline, reaches no view |

## Left out

- Paths are not normalised: `.`, `..` and repeated separators are kept as written and compared as strings. On disk `<user folder>/images/..` is the user folder itself, and `<user folder>/images/.` is the image folder. The model keeps them as paths of their own, but a consistent store holds no file under such a name and `open` on one raises `IsADirectoryError`: GET, PATCH and DELETE on `.` or `..` answer 404 (`Views.DotNamesNotFound`) and an upload under either name raises (`Views.UploadSucceeds`), as on disk. A `BASE_DIR` whose last component is `.` or `..` is looked up as a path of its own rather than resolved, so a consistent store may hold a directory under such a name; `os.mkdir` never creates one, and `os.listdir` would list it where the disk does not.
- Users.User: the usernames `.` and `..` pass the validator (`Users.DotNamesPassValidator`), but on disk their user folders are `<base>/files` and `<base>`. `is_valid` is then true whenever that folder exists, and `create` makes no folder of its own. The model compares paths as strings and does not capture this. `User.WellFormed` excludes the two names, so no lemma that requires it promises anything for them.
- Users.User.WellFormed: the layout lemmas hold for names that match the validator's pattern, but the code enforces that pattern nowhere. A name given with `--username` reaches `create` unchecked (`main_app/management/commands/newuser.py:59`, `:118-121`), and module `authenticate` takes any name (`file_system_jwt/user.py:62-65`). Only the interactive prompt cleans the field (`newuser.py:82`, `:135`), and even there `user.py:10` passes the validator class, not an instance, so the check refuses no name. For unvalidated names `Users.UnvalidatedNameCollides` shows what can go wrong.
- Users.UserTreesDisjoint: stated for usernames other than `.` and `..`. On disk the folder of `.` is `<base>/files`, which contains every other user's folder.
- Views.UploadStaysInOwnFolder: stated for usernames other than `.` and `..`. On disk the image folder of user `.` is the user folder of user `images`, so an upload by `.` writes inside another user's tree.
- Users.Create: the two outcome clauses for validated users are stated for usernames other than `.` and `..`; for those names the on-disk folder already exists whenever `<base>/files` (or `<base>`) does.
- The SHA-224 algorithm of FIPS 180-4 is not modelled: the digest is an arbitrary function parameter, and no injectivity is assumed.
- Views.Lower: only ASCII letters are lower-cased; the Unicode case mapping of `str.lower` for other characters is not modelled.
- Views.ParseOverwrite: `json.loads` also accepts JSON numbers, `null`, strings, arrays, objects and surrounding white space; the model accepts only `true` and `false` and treats every other value as raising `ValueError`.
- The `None` password the command-line tool passes in non-interactive mode is not modelled: passwords are strings.
- `main_app/management/commands/newuser.py` (prompts, TTY checks, argument parsing) is not part of this model.
- JWT authentication is not part of this model: every view receives an existing `User`.
- Django's sanitising of uploaded file names is not modelled: an upload name is joined to the image folder as given, and `Views.UploadStaysInOwnFolder` is stated for single-component names.
- The 400 branch of GET on one image (views.py:85-86) is not modelled: opening an existing file for reading cannot fail in the model.
- `os.listdir` returns a list in file-system order; `Views.ListImages` returns the set of names.
- Permission errors, full disks and other OS failures are not modelled.
- Concurrent requests are not modelled: every operation runs alone.
- Response headers and content types are reduced to a status code and a body.

## Findings

| source | as written | input that shows it | evidently intended | confidence | as-written member | corrected member |
|---|---|---|---|---|---|---|
| file_system_jwt/user.py:65-66 | `get_user` returns None for an unknown username, and `user.is_valid()` is then called on None | credentials `{"username": "ghost", "password": "x"}` with no folder `files/ghost` | refuse with None, like a wrong password | high; not executed | Users.UnknownUserRaises | Users.Login |
