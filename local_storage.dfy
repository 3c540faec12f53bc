/** The local-disk storage driver (src/services/storage/local.js): file names,
    tenant-scoped locators, URL resolution, and the disk writes and deletes.
    Paths are relative to the backend's root directory, and `path.join` is
    modelled for plain segments on a POSIX system. */
module LocalStorage {

  import opened Wrappers
  import Strings

  const NoFileMessage := "No file provided for upload."
  const SaveFailedMessage := "Failed to save file."
  const DefaultBaseUrl := "http://localhost:3000"
  const UploadsDir := "uploads"

  /** A file as the upload middleware hands it over: its client-side name and
      its bytes. */
  datatype UploadedFile = UploadedFile(originalName: string, buffer: seq<bv8>)

  /** `img_${Date.now()}-${uuidv4()}${ext}`. */
  function Filename(time: nat, uuid: string, ext: string): string
  {
    "img_" + Strings.Decimal(time) + "-" + uuid + ext
  }

  /** `path.join(a, b, c)` on plain segments. */
  function JoinPath(a: string, b: string, c: string): string
  {
    a + "/" + b + "/" + c
  }

  /** The disk directory of one tenant: `path.join(UPLOAD_DIR, destination)`. */
  function TenantDir(destination: string): string
  {
    UploadsDir + "/" + destination
  }

  /** The locator stored in the database: `path.join('uploads', destination,
      filename)` with every backslash turned into a slash. */
  function Locator(destination: string, filename: string): (r: string)
    ensures '\\' !in r
    ensures Strings.StartsWith(r, "uploads/")
  {
    Strings.ReplaceAllRemoves(JoinPath(UploadsDir, destination, filename), '\\', '/');
    Strings.ReplaceAll(JoinPath(UploadsDir, destination, filename), '\\', '/')
  }

  /** `process.env.ASSET_BASE_URL || 'http://localhost:3000'`. */
  function BaseUrl(env: Option<string>): (b: string)
    ensures env.Some? && env.value != "" ==> b == env.value
    ensures env.None? || env.value == "" ==> b == DefaultBaseUrl
  {
    if env.Some? && env.value != "" then env.value else DefaultBaseUrl
  }

  /** `getURL(filePath)`: `null` for a falsy path; otherwise the base URL, a
      slash, and the path without one leading slash. */
  function GetURL(filePath: Option<string>, env: Option<string>): (r: Option<string>)
    ensures r.None? <==> filePath.None? || filePath.value == ""
    ensures r.Some? && !Strings.StartsWith(filePath.value, "/") ==> r.value == BaseUrl(env) + "/" + filePath.value
    ensures r.Some? && Strings.StartsWith(filePath.value, "/") ==> r.value == BaseUrl(env) + "/" + filePath.value[1..]
  {
    if filePath.None? || filePath.value == "" then None
    else
      var path := filePath.value;
      var clean := if Strings.StartsWith(path, "/") then path[1..] else path;
      Some(BaseUrl(env) + "/" + clean)
  }

  /** A path segment `path.join` keeps as it is. */
  predicate PlainSegment(s: string)
  {
    s != "" && s != "." && s != ".." && '/' !in s && '\\' !in s
  }

  /** With no backslash in its parts, the locator is exactly
      `uploads/<destination>/<filename>`. */
  lemma LocatorPlain(destination: string, filename: string)
    requires '\\' !in destination && '\\' !in filename
    ensures Locator(destination, filename) == "uploads/" + destination + "/" + filename
  {
    Strings.ReplaceAllIdentity(JoinPath(UploadsDir, destination, filename), '\\', '/');
  }

  /** Uploads of two tenants never share a locator: the destination segment
      can be read back from the locator. */
  lemma LocatorScoped(d1: string, f1: string, d2: string, f2: string)
    requires PlainSegment(d1) && PlainSegment(d2) && '\\' !in f1 && '\\' !in f2
    requires Locator(d1, f1) == Locator(d2, f2)
    ensures d1 == d2 && f1 == f2
  {
    LocatorPlain(d1, f1);
    LocatorPlain(d2, f2);
    var p1 := "uploads/" + d1 + "/" + f1;
    var p2 := "uploads/" + d2 + "/" + f2;
    var t1, t2 := d1 + "/" + f1, d2 + "/" + f2;
    assert p1[8..] == t1 && p2[8..] == t2;
    Strings.SeparatedUnique(d1, f1, d2, f2, '/');
  }


  /** Two uploads at different instants, or with different random ids of the
      same length (the UUID format), get different file names. */
  lemma FilenameDistinct(t1: nat, u1: string, e1: string, t2: nat, u2: string, e2: string)
    requires |u1| == |u2|
    requires Filename(t1, u1, e1) == Filename(t2, u2, e2)
    ensures t1 == t2 && u1 == u2 && e1 == e2
  {
    var d1, d2 := Strings.Decimal(t1), Strings.Decimal(t2);
    var r1, r2 := d1 + "-" + u1 + e1, d2 + "-" + u2 + e2;
    assert Filename(t1, u1, e1)[4..] == r1;
    assert Filename(t2, u2, e2)[4..] == r2;
    assert r1 == r2;
    assert '-' !in d1 && '-' !in d2 by {
      assert forall i :: 0 <= i < |d1| ==> Strings.IsDigit(d1[i]);
      assert forall i :: 0 <= i < |d2| ==> Strings.IsDigit(d2[i]);
    }
    assert r1 == d1 + "-" + (u1 + e1);
    assert r2 == d2 + "-" + (u2 + e2);
    Strings.SeparatedUnique(d1, u1 + e1, d2, u2 + e2, '-');
    Strings.DecimalInjective(t1, t2);
    assert u1 == (u1 + e1)[..|u1|] && u2 == (u2 + e2)[..|u2|];
    assert e1 == (u1 + e1)[|u1|..] && e2 == (u2 + e2)[|u2|..];
  }

  /** Resolving a fresh locator: the base URL, `/uploads/`, the tenant's
      segment and the file name, because a locator never starts with a slash. */
  lemma UploadedUrl(env: Option<string>, destination: string, filename: string)
    requires '\\' !in destination && '\\' !in filename
    ensures GetURL(Some(Locator(destination, filename)), env)
      == Some(BaseUrl(env) + "/uploads/" + destination + "/" + filename)
  {
    LocatorPlain(destination, filename);
    var loc := Locator(destination, filename);
    assert loc[..1] == "u";
    var base, t := BaseUrl(env), destination + "/" + filename;
    assert base + "/" + loc == base + "/uploads/" + destination + "/" + filename by {
      assert loc == "uploads/" + t;
      assert base + "/uploads/" + destination + "/" + filename == base + "/uploads/" + t;
      assert "/" + "uploads/" == "/uploads/";
    }
  }

  /** The local driver strips one leading slash, so `"a"` and `"/a"` resolve
      to the same URL; `"//a"` keeps one slash. */
  lemma LeadingSlashCollapses(env: Option<string>, path: string)
    requires path != "" && !Strings.StartsWith(path, "/")
    ensures GetURL(Some("/" + path), env) == GetURL(Some(path), env)
    ensures GetURL(Some("//" + path), env) == Some(BaseUrl(env) + "//" + path)
  {
    assert ("/" + path)[1..] == path;
    assert ("//" + path)[1..] == "/" + path;
    assert BaseUrl(env) + "/" + ("/" + path) == BaseUrl(env) + "//" + path;
  }

  /** The files under the backend's root directory: the directories that
      exist and the bytes of each file, keyed by relative path. */
  datatype DiskState = DiskState(dirs: set<string>, files: map<string, seq<bv8>>)

  /** What the environment decides during one upload: `Date.now()`,
      `uuidv4()`, `path.extname`, whether `mkdirSync` or `writeFile` throws,
      and what a failing `writeFile` leaves at its path: nothing when the
      open itself failed, otherwise the (possibly empty) bytes written
      before the failure, since the file is opened for writing first. */
  datatype UploadIo = UploadIo(time: nat, uuid: string, extname: string -> string,
                               mkdirFails: bool, writeFails: bool, leftover: Option<seq<bv8>>)

  /** The file name an upload of `file` picks. */
  function NameFor(file: UploadedFile, io: UploadIo): string
  {
    Filename(io.time, io.uuid, io.extname(file.originalName))
  }

  /** `await upload(file, destination)`: its result (the locator, or the
      message it throws) and the disk afterwards. A missing file is refused
      before any disk work; the tenant directory is created when missing; any
      failure of the write path is reported as one message. */
  function UploadEffect(s: DiskState, file: Option<UploadedFile>, destination: string, io: UploadIo)
    : (out: (Result<string, string>, DiskState))
    ensures file.None? ==> out == (Err(NoFileMessage), s)
    ensures out.0.Err? ==> s.files.Keys <= out.1.files.Keys
    ensures out.0.Err? && (file.None? || (TenantDir(destination) !in s.dirs && io.mkdirFails) || io.leftover.None?) ==>
      out.1.files == s.files
    ensures out.0.Err? && file.Some? && !(TenantDir(destination) !in s.dirs && io.mkdirFails) && io.leftover.Some? ==>
      out.1.files == s.files[JoinPath(UploadsDir, destination, NameFor(file.value, io)) := io.leftover.value]
    ensures out.0.Err? ==> out.0.error == NoFileMessage || out.0.error == SaveFailedMessage
    ensures file.Some? ==> (out.0.Ok? <==> !((TenantDir(destination) !in s.dirs && io.mkdirFails) || io.writeFails))
    ensures out.0.Ok? ==>
      && out.0.value == Locator(destination, NameFor(file.value, io))
      && out.1.files == s.files[JoinPath(UploadsDir, destination, NameFor(file.value, io)) := file.value.buffer]
      && TenantDir(destination) in out.1.dirs
    ensures s.dirs <= out.1.dirs
  {
    if file.None? then (Err(NoFileMessage), s)
    else
      var name := NameFor(file.value, io);
      var dir := TenantDir(destination);
      var missing := dir !in s.dirs;
      if missing && io.mkdirFails then (Err(SaveFailedMessage), s)
      else
        var dirs := s.dirs + (if missing then {UploadsDir, dir} else {});
        if io.writeFails then
          var files := if io.leftover.Some? then s.files[dir + "/" + name := io.leftover.value] else s.files;
          (Err(SaveFailedMessage), DiskState(dirs, files))
        else (Ok(Locator(destination, name)), DiskState(dirs, s.files[dir + "/" + name := file.value.buffer]))
  }

  /** `await deleteFile(filePath)`: a falsy path changes nothing; otherwise
      the file is gone unless `unlink` throws, and that failure is swallowed,
      so the call never reports an error. */
  function DeleteEffect(files: map<string, seq<bv8>>, filePath: Option<string>, unlinkFails: bool)
    : (r: map<string, seq<bv8>>)
    ensures r.Keys <= files.Keys
    ensures forall p :: p in r ==> r[p] == files[p]
    ensures filePath.None? || filePath.value == "" || unlinkFails ==> r == files
    ensures filePath.Some? && filePath.value != "" && !unlinkFails ==> filePath.value !in r
    ensures forall p :: p in files && Some(p) != filePath ==> p in r
  {
    if filePath.None? || filePath.value == "" || unlinkFails then files
    else files - {filePath.value}
  }

  /** A locator from a plain destination and a name without backslashes is
      the path the file was written to, so deleting it removes exactly that
      file: upload followed by delete leaves the files as they were, apart
      from an earlier file at that path. */
  lemma {:induction false} UploadThenDelete(s: DiskState, file: UploadedFile, destination: string, io: UploadIo)
    requires '\\' !in destination && '\\' !in io.uuid && '\\' !in io.extname(file.originalName)
    requires !io.writeFails && (TenantDir(destination) in s.dirs || !io.mkdirFails)
    ensures var out := UploadEffect(s, Some(file), destination, io);
      && out.0.Ok?
      && DeleteEffect(out.1.files, Some(out.0.value), false) == s.files - {out.0.value}
  {
    var name := NameFor(file, io);
    assert '\\' !in name by {
      var d := Strings.Decimal(io.time);
      assert forall i :: 0 <= i < |d| ==> Strings.IsDigit(d[i]);
    }
    LocatorPlain(destination, name);
    var loc := Locator(destination, name);
    assert JoinPath(UploadsDir, destination, name) == loc;
    var out := UploadEffect(s, Some(file), destination, io);
    assert out.1.files == s.files[loc := file.buffer];
    assert s.files[loc := file.buffer] - {loc} == s.files - {loc};
  }

  /** The local disk as the driver changes it. */
  class Disk {
    var dirs: set<string>
    var files: map<string, seq<bv8>>

    function State(): DiskState
      reads this
    {
      DiskState(dirs, files)
    }

    constructor (s: DiskState)
      ensures State() == s
    {
      dirs := s.dirs;
      files := s.files;
    }

    /** `upload(file, destination)`, step by step. */
    method Upload(file: Option<UploadedFile>, destination: string, io: UploadIo)
      returns (r: Result<string, string>)
      modifies this
      ensures (r, State()) == UploadEffect(old(State()), file, destination, io)
    {
      if file.None? {
        return Err(NoFileMessage);
      }
      var name := Filename(io.time, io.uuid, io.extname(file.value.originalName));
      var dir := TenantDir(destination);
      var missing := dir !in dirs;
      if missing {
        if io.mkdirFails {
          return Err(SaveFailedMessage);
        }
        dirs := dirs + {UploadsDir, dir};
      }
      assert dirs == old(dirs) + (if missing then {UploadsDir, dir} else {});
      var fullPath := dir + "/" + name;
      if io.writeFails {
        if io.leftover.Some? {
          files := files[fullPath := io.leftover.value];
        }
        return Err(SaveFailedMessage);
      }
      files := files[fullPath := file.value.buffer];
      r := Ok(Locator(destination, name));
    }

    /** `deleteFile(filePath)`, step by step. */
    method DeleteFile(filePath: Option<string>, unlinkFails: bool)
      modifies this
      ensures dirs == old(dirs)
      ensures files == DeleteEffect(old(files), filePath, unlinkFails)
    {
      if filePath.None? || filePath.value == "" {
        return;
      }
      if filePath.value in files && !unlinkFails {
        files := files - {filePath.value};
      }
    }
  }
}
