/**
 * `FileUploadController.uploadImage`: stores an uploaded image under a
 * per-type directory and answers with the path to serve it from.
 *
 * The disk is a set of directories and a map from file paths to contents.
 * The random UUID is the parameter `uuid`. A copy that fails for a reason the
 * model does not track (a full disk, a missing permission) is the parameter
 * `fault`, the message of the `IOException` it raises.
 */
module FileUpload {
  import opened Wrappers
  import opened Library

  datatype Disk = Disk(dirs: set<string>, files: map<string, seq<int>>)

  const FailurePrefix: string := "Failed to upload file: "

  /** `uploadDir + "/" + type`: the directory of one image type. */
  function TypeDir(uploadDir: string, kind: string): string
  {
    uploadDir + "/" + kind
  }

  /** `UUID + "_" + getOriginalFilename()`; a missing original name prints as `null`. */
  function StoredName(uuid: string, original: Option<string>): (name: string)
    ensures |name| == |uuid| + 1 + |original.GetOr("null")|
    ensures name[..|uuid| + 1] == uuid + "_"
    ensures name[|uuid| + 1..] == original.GetOr("null")
  {
    var name := uuid + "_" + original.GetOr("null");
    assert name[..|uuid| + 1] == uuid + "_";
    name
  }

  /** `Paths.get(typeDir, filename)`. */
  function StoredPath(uploadDir: string, kind: string, name: string): string
  {
    TypeDir(uploadDir, kind) + "/" + name
  }

  /** `"/" + type + "/" + filename`: the path the client serves the image from. */
  function PublicPath(kind: string, name: string): string
  {
    "/" + kind + "/" + name
  }

  /**
   * `uploadImage`: create the type directory when it is missing, then copy
   * the content to a new file. `Files.copy` without options refuses to
   * overwrite, so an existing file is an `IOException` whose message is the
   * path; any IOException becomes a 400 with its message. The directory stays
   * created even when the copy fails.
   */
  function UploadImage(
    disk: Disk, uploadDir: string, kind: string, original: Option<string>, content: seq<int>,
    uuid: string, fault: Option<string>)
    : (r: (Disk, Reply<string>))
    ensures var dir := TypeDir(uploadDir, kind);
      var path := StoredPath(uploadDir, kind, StoredName(uuid, original));
      r.0.dirs == disk.dirs + {dir}
      && (r.1.Success? <==> fault.None? && path !in disk.files)
      && (r.1.Success? ==>
        r.1.body == PublicPath(kind, StoredName(uuid, original)) && r.0.files == disk.files[path := content])
      && (!r.1.Success? ==> r.0.files == disk.files && r.1.BadRequest?)
    ensures r.1.BadRequest? ==> |FailurePrefix| <= |r.1.message| && r.1.message[..|FailurePrefix|] == FailurePrefix
  {
    var dir := TypeDir(uploadDir, kind);
    var made := disk.(dirs := disk.dirs + {dir});
    var name := StoredName(uuid, original);
    var path := StoredPath(uploadDir, kind, name);
    var copied: Result<string, string> :=
      if fault.Some? then Err(fault.value)
      else if path in disk.files then Err(path)
      else Ok(path);
    match copied
    case Ok(_) => (made.(files := disk.files[path := content]), Success(PublicPath(kind, name)))
    case Err(message) =>
      var text := FailurePrefix + message;
      assert text[..|FailurePrefix|] == FailurePrefix;
      (made, BadRequest(text))
  }

  /** The returned path, put after the upload directory, is where the file was stored. */
  lemma PublicPathLocatesFile(
    disk: Disk, uploadDir: string, kind: string, original: Option<string>, content: seq<int>,
    uuid: string, fault: Option<string>)
    requires UploadImage(disk, uploadDir, kind, original, content, uuid, fault).1.Success?
    ensures var r := UploadImage(disk, uploadDir, kind, original, content, uuid, fault);
      uploadDir + r.1.body in r.0.files && r.0.files[uploadDir + r.1.body] == content
  {
    var name := StoredName(uuid, original);
    assert uploadDir + PublicPath(kind, name) == StoredPath(uploadDir, kind, name);
  }

  /** Two uploads with different UUIDs of the same length never share a stored name, whatever the original names. */
  lemma DistinctUuidsDistinctNames(u1: string, u2: string, o1: Option<string>, o2: Option<string>)
    requires |u1| == |u2| && u1 != u2
    ensures StoredName(u1, o1) != StoredName(u2, o2)
  {
    var n1, n2 := StoredName(u1, o1), StoredName(u2, o2);
    assert n1[..|u1|] == u1;
    assert n2[..|u2|] == u2;
  }

  /**
   * The type and the original name reach the path verbatim: nothing is
   * removed, so a type such as `../x` steps out of the upload directory.
   */
  lemma PathIsNotSanitised(uploadDir: string, kind: string, uuid: string, original: Option<string>)
    ensures var path := StoredPath(uploadDir, kind, StoredName(uuid, original));
      var start := |uploadDir| + 1;
      path[..|uploadDir|] == uploadDir && path[start..start + |kind|] == kind
      && path[|path| - |original.GetOr("null")|..] == original.GetOr("null")
  {
    var name := StoredName(uuid, original);
    var path := StoredPath(uploadDir, kind, name);
    assert path == uploadDir + "/" + kind + "/" + uuid + "_" + original.GetOr("null");
    assert path[..|uploadDir|] == uploadDir;
    assert path[|uploadDir| + 1..|uploadDir| + 1 + |kind|] == kind;
  }
}
