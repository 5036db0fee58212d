/** Multipart uploads in a directory, with removals and writes that may fail. */
module Uploads {
  import opened Bytes

  type Id = nat

  /** The files the server keeps; an upload's own files carry its identifier in their names. */
  datatype Path =
    | ObjectFile(bucket: string, key: string)
    | Attributes(bucket: string, key: string, upload: Option<Id>)
    | Internal(bucket: string, key: string)
    | UploadInfo(id: Id)
    | PartFile(id: Id, part: int)
    | PartInfo(id: Id, part: int)
    | Tmp(n: nat)
  {
    predicate Of(upload: Id) {
      match this
      case Attributes(_, _, u) => u == Some(upload)
      case UploadInfo(i) => i == upload
      case PartFile(i, _) => i == upload
      case PartInfo(i, _) => i == upload
      case _ => false
    }
  }

  /** Object and part bytes, the owner of an upload, or serialised attributes and checksums. */
  datatype Blob = Data(bytes: seq<Byte>) | Owner(cred: Option<string>) | Meta(text: string)

  datatype Disk = Disk(files: map<Path, Blob>, counter: nat)

  /** What goes wrong during one call: removals that fail, and files that cannot be created or renamed to. */
  datatype Env = Env(stuck: set<Path>, unwritable: set<Path>)

  datatype Outcome =
    | Success | InvalidArgument | InvalidPart | InvalidRequest | AccessDenied
    | PreconditionFailed | EntityTooSmall | BadDigest | InternalError

  const MIN_PART: nat := 5 * 1024 * 1024
  const MAX_PART_NUMBER: nat := 10_000
  const READ_SIZE: nat := 65536

  // ----- Single files

  /** Removing a file that is not there succeeds. */
  function Remove(disk: Disk, p: Path, env: Env): (bool, Disk) {
    if p !in disk.files then (true, disk)
    else if p in env.stuck then (false, disk)
    else (true, disk.(files := disk.files - {p}))
  }

  /** A writer that is dropped tries to remove its temporary file. */
  function Drop(disk: Disk, tmp: Path, env: Env): Disk {
    Remove(disk, tmp, env).1
  }

  /** Opens a temporary file under the next number. */
  function Prepare(disk: Disk, env: Env): (Option<Path>, Disk) {
    var tmp := Tmp(disk.counter);
    var next := disk.(counter := disk.counter + 1);
    if tmp in env.unwritable then (None, next) else (Some(tmp), next.(files := next.files[tmp := Data([])]))
  }

  /** Moves the temporary file to its destination, or drops it. */
  function Finish(disk: Disk, tmp: Path, dest: Path, env: Env): (bool, Disk)
    requires tmp in disk.files
  {
    if dest in env.unwritable then (false, Drop(disk, tmp, env))
    else (true, disk.(files := (disk.files - {tmp})[dest := disk.files[tmp]]))
  }

  /** An atomic write. */
  function WriteFile(disk: Disk, dest: Path, blob: Blob, env: Env): (bool, Disk) {
    var started := Prepare(disk, env);
    if started.0.None? then (false, started.1)
    else Finish(started.1.(files := started.1.files[started.0.value := blob]), started.0.value, dest, env)
  }

  predicate Verified(disk: Disk, id: Id, cred: Option<string>) {
    UploadInfo(id) in disk.files && disk.files[UploadInfo(id)] == Owner(cred)
  }

  // ----- The four calls

  datatype Call =
    | Create(id: Id, cred: Option<string>, bucket: string, key: string, attrs: string)
    | Upload(
        id: Id, cred: Option<string>, bucket: string, key: string,
        part: int, body: seq<Byte>, digestOk: bool, info: string)
    | Complete(id: Id, cred: Option<string>, bucket: string, key: string, parts: seq<Option<int>>, checks: Checks)
    | Abort(id: Id, cred: Option<string>, bucket: string, key: string, order: seq<Path>)

  /** The conditional headers and checksums of a completion, and what it records about the object. */
  datatype Checks = Checks(
    /* the object's bytes and its record, if any, do not meet `If-Match` or `If-None-Match` */
    refuses: (Option<Blob>, Option<Blob>) -> bool,
    /* the recorded checksums of a part agree with the request */
    partOk: (int, Option<Blob>) -> bool,
    digestOk: seq<Byte> -> bool,
    info: seq<Byte> -> string
  )

  function Lookup(disk: Disk, p: Path): Option<Blob> {
    if p in disk.files then Some(disk.files[p]) else None
  }

  function CreateUpload(disk: Disk, call: Call, env: Env): (Outcome, Disk)
    requires call.Create?
  {
    var named := WriteFile(disk, UploadInfo(call.id), Owner(call.cred), env);
    if !named.0 then (InternalError, named.1)
    else
      var saved := WriteFile(named.1, Attributes(call.bucket, call.key, Some(call.id)), Meta(call.attrs), env);
      (if saved.0 then Success else InternalError, saved.1)
  }

  function UploadPart(disk: Disk, call: Call, env: Env): (Outcome, Disk)
    requires call.Upload?
  {
    if call.part > MAX_PART_NUMBER then (InvalidArgument, disk)
    else if !Verified(disk, call.id, call.cred) then (AccessDenied, disk)
    else
      var started := Prepare(disk, env);
      if started.0.None? then (InternalError, started.1)
      else
        var tmp := started.0.value;
        var full := started.1.(files := started.1.files[tmp := Data(call.body)]);
        if !call.digestOk then (BadDigest, Drop(full, tmp, env))
        else
          var written := Finish(full, tmp, PartFile(call.id, call.part), env);
          if !written.0 then (InternalError, written.1)
          else
            var saved := WriteFile(written.1, PartInfo(call.id, call.part), Meta(call.info), env);
            (if saved.0 then Success else InternalError, saved.1)
  }

  /** The concatenation in progress: what is written so far, and why it stopped, if it did. */
  datatype Assembly = Assembly(bytes: seq<Byte>, error: Option<Outcome>)

  function PartBytes(disk: Disk, id: Id, part: int): Option<seq<Byte>> {
    var p := PartFile(id, part);
    if p in disk.files && disk.files[p].Data? then Some(disk.files[p].bytes) else None
  }

  /** One round of the concatenation: part number `n` of the list. */
  function AddPart(disk: Disk, call: Call, sofar: seq<Byte>, n: nat): Assembly
    requires call.Complete? && 1 <= n <= |call.parts|
  {
    var number := call.parts[n - 1];
    if number != Some(n) then Assembly(sofar, Some(InvalidRequest))
    else if !call.checks.partOk(n, Lookup(disk, PartInfo(call.id, n))) then Assembly(sofar, Some(InvalidPart))
    else
      var bytes := PartBytes(disk, call.id, n);
      if bytes.None? then Assembly(sofar, Some(InternalError))
      else if n != |call.parts| && |bytes.value| < MIN_PART then Assembly(sofar + bytes.value, Some(EntityTooSmall))
      else Assembly(sofar + bytes.value, None)
  }

  function Assemble(disk: Disk, call: Call, n: nat): Assembly
    requires call.Complete? && n <= |call.parts|
  {
    if n == 0 then Assembly([], None)
    else
      var before := Assemble(disk, call, n - 1);
      if before.error.Some? then before else AddPart(disk, call, before.bytes, n)
  }

  /** Why a completion is refused before anything is touched. */
  function Refusal(disk: Disk, call: Call): Option<Outcome>
    requires call.Complete?
  {
    if call.parts == [] then Some(InvalidPart)
    else if !Verified(disk, call.id, call.cred) then Some(AccessDenied)
    else if call.checks.refuses(
              Lookup(disk, ObjectFile(call.bucket, call.key)), Lookup(disk, Internal(call.bucket, call.key))) then
      Some(PreconditionFailed)
    else None
  }

  /** The files a completion cleans up: the upload's attributes and both files of every listed part. */
  function Residue(call: Call, n: nat): set<Path> {
    {Attributes(call.bucket, call.key, Some(call.id))}
    + (set i: nat | 1 <= i <= n :: PartFile(call.id, i))
    + (set i: nat | 1 <= i <= n :: PartInfo(call.id, i))
  }

  /** Removals that keep going after a failure. */
  function Swept(disk: Disk, paths: set<Path>, env: Env): Disk {
    disk.(files := disk.files - (paths - env.stuck))
  }

  /** Some of the files could not be removed. */
  predicate LeavesResidue(disk: Disk, paths: set<Path>, env: Env) {
    paths * env.stuck * disk.files.Keys != {}
  }

  function CleanUp(disk: Disk, call: Call, env: Env): Disk
    requires call.Complete?
  {
    var paths := Residue(call, |call.parts|);
    var swept := Swept(disk, paths, env);
    if LeavesResidue(disk, paths, env) then swept else Remove(swept, UploadInfo(call.id), env).1
  }

  /** What follows the rename: the object's attributes and record are saved, then the upload is cleaned up. */
  function Record(disk: Disk, call: Call, attrs: Option<Blob>, bytes: seq<Byte>, env: Env): (Outcome, Disk)
    requires call.Complete?
  {
    var saved := if attrs.None? then (true, disk)
                 else WriteFile(disk, Attributes(call.bucket, call.key, None), attrs.value, env);
    if !saved.0 then (InternalError, saved.1)
    else
      var noted := WriteFile(saved.1, Internal(call.bucket, call.key), Meta(call.checks.info(bytes)), env);
      if !noted.0 then (InternalError, noted.1) else (Success, CleanUp(noted.1, call, env))
  }

  function CompleteUpload(disk: Disk, call: Call, env: Env): (Outcome, Disk)
    requires call.Complete?
  {
    var refused := Refusal(disk, call);
    if refused.Some? then (refused.value, disk)
    else
      var attrs := Lookup(disk, Attributes(call.bucket, call.key, Some(call.id)));
      var started := Prepare(disk, env);
      if started.0.None? then (InternalError, started.1)
      else
        var tmp := started.0.value;
        var all := Assemble(started.1, call, |call.parts|);
        var full := started.1.(files := started.1.files[tmp := Data(all.bytes)]);
        if all.error.Some? then (all.error.value, Drop(full, tmp, env))
        else if !call.checks.digestOk(all.bytes) then (BadDigest, Drop(full, tmp, env))
        else
          var renamed := Finish(full, tmp, ObjectFile(call.bucket, call.key), env);
          if !renamed.0 then (InternalError, renamed.1) else Record(renamed.1, call, attrs, all.bytes, env)
  }

  /** Removals in directory order that stop at the first failure. */
  function RemoveParts(disk: Disk, id: Id, order: seq<Path>, env: Env): (bool, Disk)
    decreases |order|
  {
    if order == [] then (true, disk)
    else if (order[0].PartFile? || order[0].PartInfo?) && order[0].id == id then
      var removed := Remove(disk, order[0], env);
      if !removed.0 then removed else RemoveParts(removed.1, id, order[1..], env)
    else RemoveParts(disk, id, order[1..], env)
  }

  function AbortUpload(disk: Disk, call: Call, env: Env): (Outcome, Disk)
    requires call.Abort?
  {
    if !Verified(disk, call.id, call.cred) then (AccessDenied, disk)
    else
      var meta := Remove(disk, Attributes(call.bucket, call.key, Some(call.id)), env);
      if !meta.0 then (InternalError, meta.1)
      else
        var parts := RemoveParts(meta.1, call.id, call.order, env);
        if !parts.0 then (InternalError, parts.1)
        else
          var last := Remove(parts.1, UploadInfo(call.id), env);
          (if last.0 then Success else InternalError, last.1)
  }

  function Step(disk: Disk, call: Call, env: Env): (Outcome, Disk) {
    match call
    case Create(_, _, _, _, _) => CreateUpload(disk, call, env)
    case Upload(_, _, _, _, _, _, _, _) => UploadPart(disk, call, env)
    case Complete(_, _, _, _, _, _) => CompleteUpload(disk, call, env)
    case Abort(_, _, _, _, _) => AbortUpload(disk, call, env)
  }
}
