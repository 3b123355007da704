/** The filesystem-backed user store: a user is a folder under `<base>/files`, holding an
    `images` folder and a `.user` file with the hex SHA-224 digest of the password. */
module Users {
  import opened Common
  import opened Paths
  import opened Files

  /** A character Django's ASCII username validator accepts: an ASCII letter, digit or one of `_.@+-`. */
  predicate IsUsernameChar(c: char)
  {
    || 'a' <= c <= 'z' || 'A' <= c <= 'Z' || '0' <= c <= '9'
    || c == '_' || c == '.' || c == '@' || c == '+' || c == '-'
  }

  /** The username field's validator: one or more accepted characters. */
  predicate IsAsciiUsername(name: string)
  {
    name != [] && forall i :: 0 <= i < |name| ==> IsUsernameChar(name[i])
  }

  predicate IsHexDigit(c: char)
  {
    '0' <= c <= '9' || 'a' <= c <= 'f'
  }

  /** What `hexdigest()` of a SHA-224 hash returns: 56 lower-case hex digits. */
  predicate IsHexDigest(s: string)
  {
    |s| == 56 && forall i :: 0 <= i < |s| ==> IsHexDigit(s[i])
  }

  type HexDigest = s: string | IsHexDigest(s)
    witness seq(56, _ => '0')

  /** `hashlib.sha224(password.encode()).hexdigest()`, taken as a given function. */
  type Hasher = string -> HexDigest

  /** `digest.encode()`: the ASCII bytes of a hex digest. */
  function Encode(d: HexDigest): (r: Bytes)
    ensures |r| == 56
  {
    seq(|d|, i requires 0 <= i < |d| => d[i] as int as byte)
  }

  /** Comparing encoded digests compares the digests. */
  lemma EncodeInjective(a: HexDigest, b: HexDigest)
    ensures Encode(a) == Encode(b) <==> a == b
  {
    if Encode(a) == Encode(b) {
      forall i | 0 <= i < |a|
        ensures a[i] == b[i]
      {
        assert Encode(a)[i] == Encode(b)[i];
      }
    }
  }

  /** A user handle: the paths are derived from the base directory and the username alone. */
  datatype User = User(baseDir: Path, username: string) {

    /** `<base>/files`, the folder all user folders live in. */
    function FilesFolder(): Path
    {
      Join(baseDir, "files")
    }

    function UserFolder(): Path
    {
      Join(FilesFolder(), username)
    }

    function ImageFolder(): Path
    {
      Join(UserFolder(), "images")
    }

    function CredentialFile(): Path
    {
      Join(UserFolder(), ".user")
    }

    /** The base directory is a path without a trailing separator, the name passes the validator,
        and the name is not `.` or `..`: the validator admits those two, but on disk their user
        folders are `<base>/files` and `<base>` themselves, not folders of their own. */
    predicate WellFormed()
    {
      IsDirPrefix(baseDir) && IsAsciiUsername(username) && !IsDotName(username)
    }
  }

  /** The username validator admits `.` and `..`, so the path layout of a validated name can still
      alias `<base>/files` or `<base>`. */
  lemma DotNamesPassValidator()
    ensures IsAsciiUsername(".") && IsAsciiUsername("..")
    ensures !User("/srv", ".").WellFormed() && !User("/srv", "..").WellFormed()
  {
    assert IsUsernameChar('.');
  }

  /** For a validated name the folders are `<base>/files/<name>`, its `images` subfolder and its
      `.user` file. */
  lemma UserPaths(u: User)
    requires u.WellFormed()
    ensures u.UserFolder() == u.baseDir + "/files/" + u.username
    ensures u.ImageFolder() == u.UserFolder() + "/images"
    ensures u.CredentialFile() == u.UserFolder() + "/.user"
  {
    var files := u.FilesFolder();
    JoinPlain(u.baseDir, "files");
    JoinComponent(u.baseDir, "files");
    assert IsComponent(u.username);
    JoinPlain(files, u.username);
    assert files + "/" + u.username == u.baseDir + "/files/" + u.username;
    JoinComponent(files, u.username);
    JoinPlain(u.UserFolder(), "images");
    JoinPlain(u.UserFolder(), ".user");
  }

  /** `<base>/files` is the entry `files` of the base directory. */
  lemma FilesFolderParent(u: User)
    requires IsDirPrefix(u.baseDir)
    ensures Dirname(u.FilesFolder()) == u.baseDir && |u.baseDir| < |u.FilesFolder()|
  {
    JoinPlain(u.baseDir, "files");
    DirnameOfJoin(u.baseDir, "files");
  }

  /** The user folder of a validated user is a direct child of `<base>/files`. */
  lemma UserFolderParent(u: User)
    requires u.WellFormed()
    ensures IsDirPrefix(u.UserFolder())
    ensures Dirname(u.UserFolder()) == u.FilesFolder() && |u.FilesFolder()| < |u.UserFolder()|
    ensures Basename(u.UserFolder()) == u.username
  {
    JoinComponent(u.baseDir, "files");
    assert IsComponent(u.username);
    JoinComponent(u.FilesFolder(), u.username);
    DirnameOfJoin(u.FilesFolder(), u.username);
    BasenameOfJoin(u.FilesFolder(), u.username);
    JoinPlain(u.FilesFolder(), u.username);
  }

  /** The image folder of a validated user is the entry `images` of its user folder. */
  lemma ImageFolderParent(u: User)
    requires u.WellFormed()
    ensures Dirname(u.ImageFolder()) == u.UserFolder()
    ensures Basename(u.ImageFolder()) == "images" && !IsDotName(Basename(u.ImageFolder()))
  {
    UserFolderParent(u);
    DirnameOfJoin(u.UserFolder(), "images");
    BasenameOfJoin(u.UserFolder(), "images");
  }

  /** The `.user` file of a validated user is the entry `.user` of its user folder. */
  lemma CredentialFileParent(u: User)
    requires u.WellFormed()
    ensures Dirname(u.CredentialFile()) == u.UserFolder()
    ensures Basename(u.CredentialFile()) == ".user" && !IsDotName(Basename(u.CredentialFile()))
  {
    UserFolderParent(u);
    DirnameOfJoin(u.UserFolder(), ".user");
    BasenameOfJoin(u.UserFolder(), ".user");
  }

  /** Distinct validated users own disjoint trees: no path lies in both user folders. */
  lemma UserTreesDisjoint(u1: User, u2: User, p: Path)
    requires u1.WellFormed() && u2.WellFormed() && u1.baseDir == u2.baseDir
    requires Within(p, u1.UserFolder()) && Within(p, u2.UserFolder())
    ensures u1.username == u2.username
  {
    JoinComponent(u1.baseDir, "files");
    assert NoSep(u1.username) && NoSep(u2.username);
    SiblingsDisjoint(u1.FilesFolder(), u1.username, u2.username, p);
  }

  /** Distinct validated usernames under one base directory get distinct user and image folders. */
  lemma DistinctUsersDistinctFolders(u1: User, u2: User)
    requires u1.WellFormed() && u2.WellFormed() && u1.baseDir == u2.baseDir
    requires u1.username != u2.username
    ensures u1.UserFolder() != u2.UserFolder()
    ensures u1.ImageFolder() != u2.ImageFolder()
  {
    UserPaths(u1);
    UserPaths(u2);
    if u1.UserFolder() == u2.UserFolder() {
      UserTreesDisjoint(u1, u2, u1.UserFolder());
    }
    var p := u1.ImageFolder();
    assert Within(p, u1.UserFolder()) by {
      assert p[..|u1.UserFolder()|] == u1.UserFolder();
    }
    if p == u2.ImageFolder() {
      assert Within(p, u2.UserFolder()) by {
        assert p[..|u2.UserFolder()|] == u2.UserFolder();
      }
      UserTreesDisjoint(u1, u2, p);
    }
  }

  /** Without the validator a separator in the name makes one user's folder another user's image folder. */
  lemma UnvalidatedNameCollides(base: Path)
    requires IsDirPrefix(base)
    ensures User(base, "a/images").UserFolder() == User(base, "a").ImageFolder()
  {
    JoinPlain(base, "files");
    JoinComponent(base, "files");
    var f := base + "/files";
    JoinPlain(f, "a/images");
    JoinPlain(f, "a");
    JoinPlain(f + "/a", "images");
  }

  /** `is_valid`: the user exists exactly when its folder is a directory. */
  predicate IsValid(s: Store, u: User)
  {
    IsDir(s, u.UserFolder())
  }

  /** `User.authenticate`: false for a missing user; otherwise compares the encoded digest of the
      password with the bytes of `.user`, raising when that file cannot be opened. */
  function Authenticate(s: Store, u: User, h: Hasher, password: string): (r: Outcome<bool>)
    ensures !IsValid(s, u) ==> r == Returned(false)
    ensures r == Returned(true) <==>
              IsValid(s, u) && u.CredentialFile() in s.files && s.files[u.CredentialFile()] == Encode(h(password))
    ensures r.Raised? <==> IsValid(s, u) && u.CredentialFile() !in s.files
  {
    if !IsValid(s, u) then Returned(false)
    else if u.CredentialFile() in s.files then Returned(Encode(h(password)) == s.files[u.CredentialFile()])
    else if u.CredentialFile() in s.dirs then Raised(IsADirectoryError)
    else Raised(FileNotFoundError)
  }

  /** Once `.user` holds the digest of `p`, a password is accepted exactly when its digest is that of `p`. */
  lemma AuthenticateAfterSetPassword(s: Store, u: User, h: Hasher, p: string, q: string)
    requires IsValid(s, u) && u.CredentialFile() in s.files
    requires s.files[u.CredentialFile()] == Encode(h(p))
    ensures Authenticate(s, u, h, q) == Returned(h(q) == h(p))
  {
    EncodeInjective(h(q), h(p));
  }

  /** `User.set_password`: replaces `.user` wholesale with the encoded digest when the user exists. */
  method SetPassword(fs: FileStore, u: User, h: Hasher, password: string) returns (r: Outcome<bool>)
    requires fs.Valid()
    modifies fs
    ensures fs.Valid() && fs.dirs == old(fs.dirs)
    ensures r == Returned(false) <==> !IsValid(old(fs.State()), u)
    ensures r == Returned(true) ==> fs.files == old(fs.files)[u.CredentialFile() := Encode(h(password))]
    ensures r != Returned(true) ==> fs.files == old(fs.files)
    ensures r.Raised? ==> Some(r.error) == OpenError(old(fs.State()), u.CredentialFile())
    ensures IsValid(old(fs.State()), u) && OpenError(old(fs.State()), u.CredentialFile()).None? ==> r == Returned(true)
  {
    if !IsValid(fs.State(), u) {
      return Returned(false);
    }
    var e := fs.WriteFile(u.CredentialFile(), Encode(h(password)));
    if e.Some? {
      return Raised(e.value);
    }
    r := Returned(true);
  }

  /** For a validated user whose folder exists, `set_password` succeeds unless `.user` is a directory. */
  lemma SetPasswordCannotMissParent(s: Store, u: User)
    requires Consistent(s) && u.WellFormed() && IsValid(s, u) && u.CredentialFile() !in s.dirs
    ensures OpenError(s, u.CredentialFile()) == None
  {
    CredentialFileParent(u);
    OpenInDir(s, u.CredentialFile());
  }

  /** `User.create`: makes the user folder and its image folder when missing, then sets the password.
      A missing `password` key refuses; FileNotFoundError from a `mkdir` yields false; folders made
      before a failure stay. An existing user is not refused: its password is rewritten. */
  method Create(fs: FileStore, u: User, h: Hasher, credentials: map<string, string>) returns (r: Outcome<bool>)
    requires fs.Valid()
    modifies fs
    ensures fs.Valid()
    ensures "password" !in credentials ==> r == Returned(false) && fs.State() == old(fs.State())
    ensures old(fs.dirs) <= fs.dirs <= old(fs.dirs) + {u.UserFolder(), u.ImageFolder()}
    ensures r == Returned(true) ==>
              && "password" in credentials
              && u.UserFolder() in fs.dirs && u.ImageFolder() in fs.dirs
              && fs.files == old(fs.files)[u.CredentialFile() := Encode(h(credentials["password"]))]
    ensures r != Returned(true) ==> fs.files == old(fs.files)
    ensures r.Raised? ==> r.error != FileNotFoundError
    // the cases a validated user meets
    ensures u.WellFormed() && "password" in credentials && u.FilesFolder() !in old(fs.dirs) ==>
              && fs.State() == old(fs.State())
              && r == (if LookupError(old(fs.State()), u.FilesFolder()) == Some(NotADirectoryError)
                       then Raised(NotADirectoryError) else Returned(false))
    ensures u.WellFormed() && "password" in credentials
            && (u.UserFolder() in old(fs.dirs) || u.FilesFolder() in old(fs.dirs))
            && u.UserFolder() !in old(fs.files) && u.ImageFolder() !in old(fs.files)
            && u.CredentialFile() !in old(fs.dirs)
            ==> r == Returned(true)
  {
    if "password" !in credentials {
      return Returned(false);
    }
    var e := EnsureUserFolders(fs, u);
    if e == Some(FileNotFoundError) {
      return Returned(false);
    } else if e.Some? {
      return Raised(e.value);
    }
    if u.WellFormed() && u.CredentialFile() !in fs.dirs {
      SetPasswordCannotMissParent(fs.State(), u);
    }
    r := SetPassword(fs, u, h, credentials["password"]);
    if r == Raised(FileNotFoundError) {
      r := Returned(false);
    }
  }

  /** The folder part of `create`: the user folder, then its image folder, each made when missing.
      Only those two folders may be added; a missing `<base>/files` fails as looking it up does,
      and once `<base>/files` or the user folder exists both folders can be made. */
  method EnsureUserFolders(fs: FileStore, u: User) returns (e: Option<PyError>)
    requires fs.Valid()
    modifies fs
    ensures fs.Valid() && fs.files == old(fs.files)
    ensures old(fs.dirs) <= fs.dirs <= old(fs.dirs) + {u.UserFolder(), u.ImageFolder()}
    ensures e.None? ==> u.UserFolder() in fs.dirs && u.ImageFolder() in fs.dirs
    ensures u.WellFormed() && u.FilesFolder() !in old(fs.dirs) ==>
              fs.dirs == old(fs.dirs) && e == LookupError(old(fs.State()), u.FilesFolder())
    ensures u.WellFormed() && (u.UserFolder() in old(fs.dirs) || u.FilesFolder() in old(fs.dirs))
            && u.UserFolder() !in old(fs.files) && u.ImageFolder() !in old(fs.files)
            ==> e.None?
  {
    if u.WellFormed() && u.FilesFolder() !in fs.dirs {
      MissingFilesFolder(fs.State(), u);
    } else if u.WellFormed() && u.UserFolder() !in fs.dirs && u.UserFolder() !in fs.files {
      MkdirUserFolder(fs.State(), u);
    }
    e := EnsureFolder(fs, u.UserFolder());
    if e.Some? {
      return;
    }
    if u.WellFormed() && u.ImageFolder() !in fs.dirs && u.ImageFolder() !in fs.files {
      MkdirImageFolder(fs.State(), u);
    }
    e := EnsureFolder(fs, u.ImageFolder());
  }

  /** `if not os.path.isdir(p): os.mkdir(p)`. */
  method EnsureFolder(fs: FileStore, p: Path) returns (e: Option<PyError>)
    requires fs.Valid()
    modifies fs
    ensures fs.Valid() && fs.files == old(fs.files)
    ensures p in old(fs.dirs) ==> e.None? && fs.dirs == old(fs.dirs)
    ensures p !in old(fs.dirs) ==> e == MkdirError(old(fs.State()), p)
    ensures e.None? ==> fs.dirs == old(fs.dirs) + {p}
    ensures e.Some? ==> fs.dirs == old(fs.dirs)
  {
    e := None;
    if !IsDir(fs.State(), p) {
      e := fs.Mkdir(p);
    }
  }

  /** `os.mkdir` of a missing user folder raises what looking up `<base>/files` raises: nothing
      when it is a directory, NotADirectoryError when it is a file, and for a missing one
      NotADirectoryError when a file stands higher up the path, FileNotFoundError otherwise. */
  lemma MkdirUserFolder(s: Store, u: User)
    requires Consistent(s) && u.WellFormed()
    requires u.UserFolder() !in s.dirs && u.UserFolder() !in s.files
    ensures MkdirError(s, u.UserFolder()) == LookupError(s, u.FilesFolder())
    ensures MkdirError(s, u.UserFolder()) == None <==> u.FilesFolder() in s.dirs
    ensures u.FilesFolder() in s.files ==> MkdirError(s, u.UserFolder()) == Some(NotADirectoryError)
    ensures u.FilesFolder() !in s.dirs && u.FilesFolder() !in s.files ==>
              MkdirError(s, u.UserFolder()) ==
                if LookupError(s, u.baseDir) == Some(NotADirectoryError) then Some(NotADirectoryError)
                else Some(FileNotFoundError)
  {
    UserFolderParent(u);
    MkdirAfterLookup(s, u.UserFolder());
    LookupDir(s, u.FilesFolder());
    if u.FilesFolder() in s.files {
      LookupFile(s, u.FilesFolder());
    } else if u.FilesFolder() !in s.dirs {
      FilesFolderParent(u);
      LookupMissing(s, u.FilesFolder());
    }
  }

  /** A regular file at `<base>` makes every lookup below it raise NotADirectoryError, so `create`
      raises instead of returning false. */
  lemma BaseDirIsAFile(s: Store, u: User)
    requires Consistent(s) && u.WellFormed() && u.baseDir in s.files
    ensures LookupError(s, u.FilesFolder()) == Some(NotADirectoryError)
  {
    LookupFile(s, u.baseDir);
    FilesFolderParent(u);
    LookupBelow(s, u.baseDir, u.FilesFolder());
  }

  /** Without `<base>/files` there is no user folder, and making one fails as looking up
      `<base>/files` does. */
  lemma MissingFilesFolder(s: Store, u: User)
    requires Consistent(s) && u.WellFormed() && u.FilesFolder() !in s.dirs
    ensures u.UserFolder() !in s.dirs && u.UserFolder() !in s.files
    ensures MkdirError(s, u.UserFolder()) == LookupError(s, u.FilesFolder()) != None
  {
    UserFolderParent(u);
    assert Dirname(u.UserFolder()) != u.UserFolder();
    MkdirUserFolder(s, u);
  }

  /** Once the user folder exists, `os.mkdir` of a missing image folder succeeds. */
  lemma MkdirImageFolder(s: Store, u: User)
    requires Consistent(s) && u.WellFormed() && IsValid(s, u)
    requires u.ImageFolder() !in s.dirs && u.ImageFolder() !in s.files
    ensures MkdirError(s, u.ImageFolder()) == None
  {
    ImageFolderParent(u);
    MkdirInDir(s, u.ImageFolder());
  }

  /** Module `get_user`: a handle exactly when the user exists. */
  function GetUser(s: Store, baseDir: Path, username: string): (r: Option<User>)
    ensures r.Some? <==> IsValid(s, User(baseDir, username))
    ensures r.Some? ==> r.value == User(baseDir, username)
  {
    var user := User(baseDir, username);
    if IsValid(s, user) then Some(user) else None
  }

  /** Module `authenticate`: None when a key is missing; an unknown username dereferences None and
      raises AttributeError; otherwise the user exactly when its password check succeeds. */
  function AuthenticateCredentials(s: Store, baseDir: Path, h: Hasher, credentials: map<string, string>)
    : (r: Outcome<Option<User>>)
    ensures "username" !in credentials || "password" !in credentials ==> r == Returned(None)
    ensures ("username" in credentials && "password" in credentials
             && !IsValid(s, User(baseDir, credentials["username"]))) ==> r == Raised(AttributeError)
    ensures r.Returned? && r.value.Some? ==>
              && "username" in credentials && "password" in credentials
              && r.value.value == User(baseDir, credentials["username"])
              && Authenticate(s, r.value.value, h, credentials["password"]) == Returned(true)
  {
    if "username" !in credentials || "password" !in credentials then Returned(None)
    else match GetUser(s, baseDir, credentials["username"])
      case None => Raised(AttributeError)
      case Some(user) =>
        match Authenticate(s, user, h, credentials["password"])
        case Returned(ok) => Returned(if ok then Some(user) else None)
        case Raised(e) => Raised(e)
  }

  /** As written, an unknown username with both keys present raises instead of being refused. */
  lemma UnknownUserRaises(s: Store, baseDir: Path, h: Hasher, name: string, password: string)
    requires !IsValid(s, User(baseDir, name))
    ensures AuthenticateCredentials(s, baseDir, h, map["username" := name, "password" := password])
            == Raised(AttributeError)
  {
    var credentials := map["username" := name, "password" := password];
    assert "username" in credentials && credentials["username"] == name;
    assert "password" in credentials;
  }

  /** Module `authenticate` as evidently intended: an unknown username is refused exactly like a
      wrong password, with None. */
  function Login(s: Store, baseDir: Path, h: Hasher, credentials: map<string, string>): (r: Outcome<Option<User>>)
    ensures r.Returned? && r.value.Some? <==>
              && "username" in credentials && "password" in credentials
              && Authenticate(s, User(baseDir, credentials["username"]), h, credentials["password"]) == Returned(true)
    ensures r.Returned? && r.value.Some? ==> r.value.value == User(baseDir, credentials["username"])
    ensures r.Raised? <==>
              && "username" in credentials && "password" in credentials
              && IsValid(s, User(baseDir, credentials["username"]))
              && User(baseDir, credentials["username"]).CredentialFile() !in s.files
  {
    if "username" !in credentials || "password" !in credentials then Returned(None)
    else
      var user := User(baseDir, credentials["username"]);
      match Authenticate(s, user, h, credentials["password"])
      case Returned(ok) => Returned(if ok then Some(user) else None)
      case Raised(e) => Raised(e)
  }

  /** The correction changes nothing for existing users: only the unknown-user case differs. */
  lemma LoginDiffersOnlyForUnknownUsers(s: Store, baseDir: Path, h: Hasher, credentials: map<string, string>)
    ensures ("username" in credentials && "password" in credentials
             && !IsValid(s, User(baseDir, credentials["username"]))) ==> Login(s, baseDir, h, credentials) == Returned(None)
    ensures !("username" in credentials && "password" in credentials
             && !IsValid(s, User(baseDir, credentials["username"]))) ==>
              Login(s, baseDir, h, credentials) == AuthenticateCredentials(s, baseDir, h, credentials)
  {
  }

  /** After `set_password(p)`, logging in with `q` yields the user exactly when `q` hashes like `p`. */
  lemma LoginAfterSetPassword(s: Store, baseDir: Path, h: Hasher, credentials: map<string, string>, p: string)
    requires "username" in credentials && "password" in credentials
    requires var u := User(baseDir, credentials["username"]);
             IsValid(s, u) && u.CredentialFile() in s.files && s.files[u.CredentialFile()] == Encode(h(p))
    ensures Login(s, baseDir, h, credentials)
            == Returned(if h(credentials["password"]) == h(p) then Some(User(baseDir, credentials["username"])) else None)
  {
    AuthenticateAfterSetPassword(s, User(baseDir, credentials["username"]), h, p, credentials["password"]);
  }
}
