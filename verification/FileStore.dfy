/** The server's upload operations as they run: files change one by one, under whatever fails. */
module FileStore {
  import opened Bytes
  import opened Uploads

  class FileSystem {
    var files: map<Path, Blob>
    var counter: nat

    constructor (files: map<Path, Blob>)
      ensures this.files == files && counter == 0
    {
      this.files := files;
      counter := 0;
    }

    function View(): Disk
      reads this
    {
      Disk(files, counter)
    }

    method RemoveFileIfExists(p: Path, env: Env) returns (ok: bool)
      modifies this`files
      ensures (ok, View()) == Remove(old(View()), p, env)
    {
      if p !in files {
        return true;
      }
      if p in env.stuck {
        return false;
      }
      files := files - {p};
      return true;
    }

    method PrepareFileWrite(env: Env) returns (tmp: Option<Path>)
      modifies this
      ensures (tmp, View()) == Prepare(old(View()), env)
    {
      var p := Tmp(counter);
      counter := counter + 1;
      if p in env.unwritable {
        return None;
      }
      files := files[p := Data([])];
      return Some(p);
    }

    /** The writer's `done`, and its drop when that fails. */
    method Done(tmp: Path, dest: Path, env: Env) returns (ok: bool)
      requires tmp in files
      modifies this`files
      ensures (ok, View()) == Finish(old(View()), tmp, dest, env)
    {
      if dest in env.unwritable {
        var _ := RemoveFileIfExists(tmp, env);
        return false;
      }
      files := (files - {tmp})[dest := files[tmp]];
      return true;
    }

    method Save(dest: Path, blob: Blob, env: Env) returns (ok: bool)
      modifies this
      ensures (ok, View()) == WriteFile(old(View()), dest, blob, env)
    {
      var tmp := PrepareFileWrite(env);
      if tmp.None? {
        return false;
      }
      files := files[tmp.value := blob];
      ok := Done(tmp.value, dest, env);
    }

    method CreateMultipartUpload(call: Call, env: Env) returns (r: Outcome)
      requires call.Create?
      modifies this
      ensures (r, View()) == CreateUpload(old(View()), call, env)
    {
      hide WriteFile;
      var ok := Save(UploadInfo(call.id), Owner(call.cred), env);
      if !ok {
        return InternalError;
      }
      ok := Save(Attributes(call.bucket, call.key, Some(call.id)), Meta(call.attrs), env);
      return if ok then Success else InternalError;
    }

    method PutPart(call: Call, env: Env) returns (r: Outcome)
      requires call.Upload?
      modifies this
      ensures (r, View()) == UploadPart(old(View()), call, env)
    {
      hide WriteFile, Finish, Remove;
      if call.part > MAX_PART_NUMBER {
        return InvalidArgument;
      }
      if !Verified(View(), call.id, call.cred) {
        return AccessDenied;
      }
      var tmp := PrepareFileWrite(env);
      if tmp.None? {
        return InternalError;
      }
      files := files[tmp.value := Data(call.body)];
      if !call.digestOk {
        var _ := RemoveFileIfExists(tmp.value, env);
        return BadDigest;
      }
      var ok := Done(tmp.value, PartFile(call.id, call.part), env);
      if !ok {
        return InternalError;
      }
      ok := Save(PartInfo(call.id, call.part), Meta(call.info), env);
      return if ok then Success else InternalError;
    }

    /** Appends to the temporary file in reads of at most 64 KiB, of whatever lengths they come in. */
    method CopyPart(tmp: Path, sofar: seq<Byte>, bytes: seq<Byte>) returns (size: nat)
      requires tmp in files && files[tmp] == Data(sofar)
      modifies this`files
      ensures files == old(files)[tmp := Data(sofar + bytes)] && size == |bytes|
    {
      size := 0;
      assert sofar + bytes[..0] == sofar;
      while true
        invariant size <= |bytes|
        invariant files == old(files)[tmp := Data(sofar + bytes[..size])]
        decreases |bytes| - size
      {
        if size == |bytes| {
          break;
        }
        var nread: nat :| 0 < nread <= |bytes| - size && nread <= READ_SIZE by {
          assert 0 < 1 <= |bytes| - size && 1 <= READ_SIZE;
        }
        assert sofar + bytes[..size] + bytes[size..size + nread] == sofar + bytes[..size + nread];
        files := files[tmp := Data(sofar + bytes[..size] + bytes[size..size + nread])];
        size := size + nread;
      }
      assert bytes[..size] == bytes;
    }

    /** The concatenation of the listed parts into the temporary file. */
    method WriteParts(call: Call, tmp: Path) returns (error: Option<Outcome>, all: seq<Byte>)
      requires call.Complete? && tmp.Tmp? && tmp in files && files[tmp] == Data([])
      modifies this`files
      ensures Assembly(all, error) == Assemble(old(View()), call, |call.parts|)
      ensures files == old(files)[tmp := Data(all)]
    {
      hide Assemble, AddPart;
      ghost var disk := View();
      all := [];
      var n := 0;
      NothingYet(disk, call);
      assert files == disk.files[tmp := Data([])];
      while n < |call.parts|
        invariant n <= |call.parts| && Assemble(disk, call, n) == Assembly(all, None)
        invariant files == disk.files[tmp := Data(all)]
      {
        n := n + 1;
        OnePart(disk, call, n);
        error, all := WritePart(call, tmp, all, n, disk);
        if error.Some? {
          Stopped(disk, call, n, |call.parts|);
          return;
        }
      }
      error := None;
    }

    method WritePart(call: Call, tmp: Path, sofar: seq<Byte>, n: nat, ghost disk: Disk)
      returns (error: Option<Outcome>, all: seq<Byte>)
      requires call.Complete? && 1 <= n <= |call.parts| && tmp.Tmp? && tmp in files
      requires files == disk.files[tmp := Data(sofar)]
      modifies this`files
      ensures Assembly(all, error) == AddPart(disk, call, sofar, n)
      ensures files == disk.files[tmp := Data(all)]
    {
      all := sofar;
      assert PartFile(call.id, n) != tmp && PartInfo(call.id, n) != tmp;
      assert Lookup(View(), PartInfo(call.id, n)) == Lookup(disk, PartInfo(call.id, n));
      assert PartBytes(View(), call.id, n) == PartBytes(disk, call.id, n);
      if call.parts[n - 1] != Some(n) {
        return Some(InvalidRequest), all;
      }
      if !call.checks.partOk(n, Lookup(View(), PartInfo(call.id, n))) {
        return Some(InvalidPart), all;
      }
      var bytes := PartBytes(View(), call.id, n);
      if bytes.None? {
        return Some(InternalError), all;
      }
      var size := CopyPart(tmp, sofar, bytes.value);
      all := sofar + bytes.value;
      if n != |call.parts| && size < MIN_PART {
        return Some(EntityTooSmall), all;
      }
      error := None;
    }

    method CompleteMultipartUpload(call: Call, env: Env) returns (r: Outcome)
      requires call.Complete?
      modifies this
      ensures (r, View()) == CompleteUpload(old(View()), call, env)
    {
      hide Assemble, Finish, Record, Remove, Refusal, Prepare;
      var refused := Refusal(View(), call);
      if refused.Some? {
        return refused.value;
      }
      var attrs := Lookup(View(), Attributes(call.bucket, call.key, Some(call.id)));
      ghost var start := View();
      var tmp := PrepareFileWrite(env);
      Prepared(start, env);
      if tmp.None? {
        return InternalError;
      }
      var error, all := WriteParts(call, tmp.value);
      if error.Some? {
        var _ := RemoveFileIfExists(tmp.value, env);
        return error.value;
      }
      if !call.checks.digestOk(all) {
        var _ := RemoveFileIfExists(tmp.value, env);
        return BadDigest;
      }
      var ok := Done(tmp.value, ObjectFile(call.bucket, call.key), env);
      if !ok {
        return InternalError;
      }
      r := Finalise(call, attrs, all, env);
    }

    method Finalise(call: Call, attrs: Option<Blob>, all: seq<Byte>, env: Env) returns (r: Outcome)
      requires call.Complete?
      modifies this
      ensures (r, View()) == Record(old(View()), call, attrs, all, env)
    {
      hide WriteFile, CleanUp;
      if attrs.Some? {
        var ok := Save(Attributes(call.bucket, call.key, None), attrs.value, env);
        if !ok {
          return InternalError;
        }
      }
      var ok := Save(Internal(call.bucket, call.key), Meta(call.checks.info(all)), env);
      if !ok {
        return InternalError;
      }
      RemoveResidue(call, env);
      return Success;
    }

    /** Removes everything it can, and the upload identifier only if nothing was left behind. */
    method RemoveResidue(call: Call, env: Env)
      requires call.Complete?
      modifies this`files
      ensures View() == CleanUp(old(View()), call, env)
    {
      hide Remove, Residue, LeavesResidue;
      ghost var disk := View();
      var ok := RemoveFileIfExists(Attributes(call.bucket, call.key, Some(call.id)), env);
      var failed := !ok;
      FirstSwept(disk, call, env);
      var n := 0;
      while n < |call.parts|
        invariant n <= |call.parts| && counter == disk.counter
        invariant View() == Swept(disk, Residue(call, n), env)
        invariant failed == LeavesResidue(disk, Residue(call, n), env)
      {
        n := n + 1;
        ok := RemoveFileIfExists(PartFile(call.id, n), env);
        failed := failed || !ok;
        ok := RemoveFileIfExists(PartInfo(call.id, n), env);
        failed := failed || !ok;
        NextSwept(disk, call, n, env);
      }
      if !failed {
        ok := RemoveFileIfExists(UploadInfo(call.id), env);
      }
    }

    method AbortMultipartUpload(call: Call, env: Env) returns (r: Outcome)
      requires call.Abort?
      modifies this`files
      ensures (r, View()) == AbortUpload(old(View()), call, env)
    {
      hide Remove, RemoveParts;
      if !Verified(View(), call.id, call.cred) {
        return AccessDenied;
      }
      var ok := RemoveFileIfExists(Attributes(call.bucket, call.key, Some(call.id)), env);
      if !ok {
        return InternalError;
      }
      ghost var whole := RemoveParts(View(), call.id, call.order, env);
      var n := 0;
      assert call.order[0..] == call.order;
      while n < |call.order|
        invariant n <= |call.order|
        invariant RemoveParts(View(), call.id, call.order[n..], env) == whole
      {
        var p := call.order[n];
        PartsUnfold(View(), call.id, call.order[n..], env);
        assert call.order[n..][1..] == call.order[n + 1..];
        n := n + 1;
        if (p.PartFile? || p.PartInfo?) && p.id == call.id {
          ok := RemoveFileIfExists(p, env);
          if !ok {
            return InternalError;
          }
        }
      }
      PartsUnfold(View(), call.id, call.order[n..], env);
      ok := RemoveFileIfExists(UploadInfo(call.id), env);
      return if ok then Success else InternalError;
    }
  }

  // ----- Unfolding

  lemma NothingYet(disk: Disk, call: Call)
    requires call.Complete?
    ensures Assemble(disk, call, 0) == Assembly([], None)
  {
  }

  lemma OnePart(disk: Disk, call: Call, n: nat)
    requires call.Complete? && 1 <= n <= |call.parts| && Assemble(disk, call, n - 1).error.None?
    ensures Assemble(disk, call, n) == AddPart(disk, call, Assemble(disk, call, n - 1).bytes, n)
  {
  }

  lemma {:induction false} Stopped(disk: Disk, call: Call, n: nat, m: nat)
    requires call.Complete? && n <= m <= |call.parts| && Assemble(disk, call, n).error.Some?
    ensures Assemble(disk, call, m) == Assemble(disk, call, n)
    decreases m - n
  {
    if n < m {
      Stopped(disk, call, n, m - 1);
    }
  }

  lemma Prepared(disk: Disk, env: Env)
    ensures var r := Prepare(disk, env);
            r.0.Some? ==> r.0.value.Tmp? && r.0.value in r.1.files && r.1.files[r.0.value] == Data([])
  {
  }

  lemma FirstSwept(disk: Disk, call: Call, env: Env)
    requires call.Complete?
    ensures var p := Attributes(call.bucket, call.key, Some(call.id));
            var r := Remove(disk, p, env);
            r.1 == Swept(disk, Residue(call, 0), env) && (!r.0 <==> LeavesResidue(disk, Residue(call, 0), env))
  {
    var p := Attributes(call.bucket, call.key, Some(call.id));
    assert Residue(call, 0) == {p};
    SweepOne(disk, {}, p, env);
    assert disk.files - ({} - env.stuck) == disk.files;
    assert {} + {p} == {p};
  }

  /** Removing one more file. */
  lemma SweepOne(disk: Disk, paths: set<Path>, p: Path, env: Env)
    requires p !in paths
    ensures var r := Remove(Swept(disk, paths, env), p, env);
            && r.1 == Swept(disk, paths + {p}, env)
            && (LeavesResidue(disk, paths + {p}, env) <==> LeavesResidue(disk, paths, env) || !r.0)
  {
    var swept := Swept(disk, paths, env);
    assert p in swept.files <==> p in disk.files;
    assert (paths + {p}) * env.stuck * disk.files.Keys
        == paths * env.stuck * disk.files.Keys + {p} * env.stuck * disk.files.Keys;
    if p in disk.files && p in env.stuck {
      assert p in {p} * env.stuck * disk.files.Keys;
    } else {
      assert {p} * env.stuck * disk.files.Keys == {};
    }
    assert Remove(swept, p, env).1.files == disk.files - ((paths + {p}) - env.stuck);
  }

  lemma NextSwept(disk: Disk, call: Call, n: nat, env: Env)
    requires call.Complete? && n > 0
    ensures var first := Remove(Swept(disk, Residue(call, n - 1), env), PartFile(call.id, n), env);
            var second := Remove(first.1, PartInfo(call.id, n), env);
            && second.1 == Swept(disk, Residue(call, n), env)
            && (LeavesResidue(disk, Residue(call, n), env) <==>
                LeavesResidue(disk, Residue(call, n - 1), env) || !first.0 || !second.0)
  {
    hide Remove, LeavesResidue, Swept;
    var paths := Residue(call, n - 1);
    SweepOne(disk, paths, PartFile(call.id, n), env);
    SweepOne(disk, paths + {PartFile(call.id, n)}, PartInfo(call.id, n), env);
    assert Residue(call, n) == paths + {PartFile(call.id, n)} + {PartInfo(call.id, n)};
  }

  lemma PartsUnfold(disk: Disk, id: Id, order: seq<Path>, env: Env)
    ensures order == [] ==> RemoveParts(disk, id, order, env) == (true, disk)
    ensures order != [] ==>
              RemoveParts(disk, id, order, env) ==
              if (order[0].PartFile? || order[0].PartInfo?) && order[0].id == id then
                var removed := Remove(disk, order[0], env);
                if !removed.0 then removed else RemoveParts(removed.1, id, order[1..], env)
              else RemoveParts(disk, id, order[1..], env)
  {
  }
}
