/** What every run of multipart calls keeps: a retired upload is gone, and objects change only by completion. */
module UploadRuns {
  import opened Bytes
  import opened Uploads

  // ----- What each call changes

  /** Apart from temporary files and these paths, nothing changed. */
  ghost predicate Same(a: Disk, b: Disk, except: set<Path>) {
    forall p: Path :: !p.Tmp? && p !in except ==> Lookup(a, p) == Lookup(b, p)
  }

  /** Temporary files bear numbers already given out. */
  ghost predicate TmpOk(disk: Disk) {
    forall p <- disk.files :: p.Tmp? ==> p.n < disk.counter
  }

  lemma SameTrans(a: Disk, b: Disk, c: Disk, s: set<Path>, t: set<Path>)
    requires Same(a, b, s) && Same(b, c, t)
    ensures Same(a, c, s + t)
  {
    hide Lookup;
  }

  lemma PrepareEffect(disk: Disk, env: Env)
    ensures Same(disk, Prepare(disk, env).1, {})
    ensures TmpOk(disk) ==> TmpOk(Prepare(disk, env).1)
    ensures var r := Prepare(disk, env); r.0.Some? ==> r.0.value.Tmp? && r.0.value in r.1.files
  {
  }

  lemma DropEffect(disk: Disk, tmp: Path, env: Env)
    requires tmp.Tmp?
    ensures Same(disk, Drop(disk, tmp, env), {})
    ensures TmpOk(disk) ==> TmpOk(Drop(disk, tmp, env))
  {
  }

  lemma FillEffect(disk: Disk, tmp: Path, blob: Blob)
    requires tmp.Tmp? && tmp in disk.files
    ensures Same(disk, disk.(files := disk.files[tmp := blob]), {})
    ensures TmpOk(disk) ==> TmpOk(disk.(files := disk.files[tmp := blob]))
  {
  }

  lemma FinishEffect(disk: Disk, tmp: Path, dest: Path, env: Env)
    requires tmp.Tmp? && !dest.Tmp? && tmp in disk.files
    ensures var r := Finish(disk, tmp, dest, env);
            && Same(disk, r.1, {dest})
            && (TmpOk(disk) ==> TmpOk(r.1))
            && (r.0 <==> dest !in env.unwritable)
            && Lookup(r.1, dest) == if r.0 then Lookup(disk, tmp) else Lookup(disk, dest)
  {
  }

  lemma WriteFileEffect(disk: Disk, dest: Path, blob: Blob, env: Env)
    requires !dest.Tmp?
    ensures var r := WriteFile(disk, dest, blob, env);
            && Same(disk, r.1, {dest})
            && (TmpOk(disk) ==> TmpOk(r.1))
            && Lookup(r.1, dest) == if r.0 then Some(blob) else Lookup(disk, dest)
  {
    hide Same, Finish, Prepare;
    var r := Prepare(disk, env);
    PrepareEffect(disk, env);
    if r.0.Some? {
      var full := r.1.(files := r.1.files[r.0.value := blob]);
      FillEffect(r.1, r.0.value, blob);
      FinishEffect(full, r.0.value, dest, env);
      SameTrans(disk, r.1, full, {}, {});
      SameTrans(disk, full, WriteFile(disk, dest, blob, env).1, {} + {}, {dest});
      SameMore(disk, WriteFile(disk, dest, blob, env).1, {} + {} + {dest}, {dest});
      SameAt(disk, full, dest, {} + {});
    } else {
      SameMore(disk, r.1, {}, {dest});
      SameAt(disk, r.1, dest, {});
    }
  }

  lemma SameMore(a: Disk, b: Disk, s: set<Path>, t: set<Path>)
    requires Same(a, b, s) && s <= t
    ensures Same(a, b, t)
  {
  }

  lemma SameAt(a: Disk, b: Disk, p: Path, s: set<Path>)
    requires Same(a, b, s) && p !in s && !p.Tmp?
    ensures Lookup(a, p) == Lookup(b, p)
  {
  }

  lemma CreateEffect(disk: Disk, call: Call, env: Env)
    requires call.Create?
    ensures var after := CreateUpload(disk, call, env).1;
            var info, attrs := UploadInfo(call.id), Attributes(call.bucket, call.key, Some(call.id));
            && Same(disk, after, {info, attrs})
            && (TmpOk(disk) ==> TmpOk(after))
            && (attrs in after.files && attrs !in disk.files ==> info in after.files)
            && (info in after.files && info !in disk.files ==> after.files[info] == Owner(call.cred))
  {
    hide Same, WriteFile;
    var info, attrs := UploadInfo(call.id), Attributes(call.bucket, call.key, Some(call.id));
    var named := WriteFile(disk, info, Owner(call.cred), env);
    WriteFileEffect(disk, info, Owner(call.cred), env);
    if named.0 {
      var saved := WriteFile(named.1, attrs, Meta(call.attrs), env);
      WriteFileEffect(named.1, attrs, Meta(call.attrs), env);
      SameTrans(disk, named.1, saved.1, {info}, {attrs});
      SameAt(named.1, saved.1, info, {attrs});
      assert {info} + {attrs} == {info, attrs};
    } else {
      SameAt(disk, named.1, attrs, {info});
      SameMore(disk, named.1, {info}, {info, attrs});
    }
  }

  lemma UploadEffect(disk: Disk, call: Call, env: Env)
    requires call.Upload?
    ensures var after := UploadPart(disk, call, env).1;
            && Same(disk, after, {PartFile(call.id, call.part), PartInfo(call.id, call.part)})
            && (TmpOk(disk) ==> TmpOk(after))
            && (!Verified(disk, call.id, call.cred) ==> after == disk)
  {
    hide Same, WriteFile, Finish, Prepare, Drop, TmpOk;
    var file, info := PartFile(call.id, call.part), PartInfo(call.id, call.part);
    var r := Prepare(disk, env);
    PrepareEffect(disk, env);
    SameMore(disk, r.1, {}, {file, info});
    SameRefl(disk, {file, info});
    if r.0.Some? {
      var tmp := r.0.value;
      var full := r.1.(files := r.1.files[tmp := Data(call.body)]);
      FillEffect(r.1, tmp, Data(call.body));
      SameTrans(disk, r.1, full, {}, {});
      DropEffect(full, tmp, env);
      SameTrans(disk, full, Drop(full, tmp, env), {} + {}, {});
      SameMore(disk, Drop(full, tmp, env), {} + {} + {}, {file, info});
      var written := Finish(full, tmp, file, env);
      FinishEffect(full, tmp, file, env);
      SameTrans(disk, full, written.1, {} + {}, {file});
      SameMore(disk, written.1, {} + {} + {file}, {file, info});
      var saved := WriteFile(written.1, info, Meta(call.info), env);
      WriteFileEffect(written.1, info, Meta(call.info), env);
      SameTrans(disk, written.1, saved.1, {file, info}, {info});
      SameMore(disk, saved.1, {file, info} + {info}, {file, info});
    }
  }

  lemma SameRefl(a: Disk, s: set<Path>)
    ensures Same(a, a, s)
  {
  }

  // ----- Completion

  /** The listed parts, joined. */
  function Joined(disk: Disk, id: Id, n: nat): seq<Byte> {
    if n == 0 then []
    else
      var last := PartBytes(disk, id, n);
      Joined(disk, id, n - 1) + (if last.Some? then last.value else [])
  }

  /** The first `n` parts are numbered in order, are there, and only the last of all is below the minimum. */
  ghost predicate PartsGood(disk: Disk, call: Call, n: nat)
    requires call.Complete? && n <= |call.parts|
  {
    forall i: nat :: 1 <= i <= n ==> PartGood(disk, call, i)
  }

  ghost predicate PartGood(disk: Disk, call: Call, i: nat)
    requires call.Complete? && 1 <= i <= |call.parts|
  {
    && call.parts[i - 1] == Some(i)
    && call.checks.partOk(i, Lookup(disk, PartInfo(call.id, i)))
    && PartBytes(disk, call.id, i).Some?
    && (i < |call.parts| ==> |PartBytes(disk, call.id, i).value| >= MIN_PART)
  }

  /** The concatenation succeeds exactly when all parts are good, with their joined bytes. */
  lemma {:induction false} AssembleExact(disk: Disk, call: Call, n: nat)
    requires call.Complete? && n <= |call.parts|
    ensures Assemble(disk, call, n).error.None? <==> PartsGood(disk, call, n)
    ensures Assemble(disk, call, n).error != Some(Success)
    ensures PartsGood(disk, call, n) ==> Assemble(disk, call, n).bytes == Joined(disk, call.id, n)
  {
    hide MIN_PART, Lookup, PartBytes;
    if n > 0 {
      AssembleExact(disk, call, n - 1);
      assert PartsGood(disk, call, n) <==> PartsGood(disk, call, n - 1) && PartGood(disk, call, n);
    }
  }

  lemma {:induction false} AssembleSame(a: Disk, b: Disk, call: Call, n: nat)
    requires call.Complete? && n <= |call.parts| && Same(a, b, {})
    ensures Assemble(a, call, n) == Assemble(b, call, n)
  {
    if n > 0 {
      AssembleSame(a, b, call, n - 1);
      assert Lookup(a, PartFile(call.id, n)) == Lookup(b, PartFile(call.id, n));
    }
  }

  /** When the rename happens. */
  ghost predicate Commits(disk: Disk, call: Call, env: Env)
    requires call.Complete?
  {
    && Refusal(disk, call).None?
    && Prepare(disk, env).0.Some?
    && PartsGood(disk, call, |call.parts|)
    && call.checks.digestOk(Joined(disk, call.id, |call.parts|))
    && ObjectFile(call.bucket, call.key) !in env.unwritable
  }

  /** The object's own files. */
  function Own(call: Call): set<Path> {
    {ObjectFile(call.bucket, call.key), Attributes(call.bucket, call.key, None), Internal(call.bucket, call.key)}
  }

  /** Files of the upload may have been removed, none was added, and if the upload is retired none is left. */
  ghost predicate OnlyRemoved(before: Disk, after: Disk, call: Call, paths: set<Path>) {
    && (forall p <- paths + {UploadInfo(call.id)} ::
          p in after.files ==> p in before.files && after.files[p] == before.files[p])
    && (UploadInfo(call.id) in before.files && UploadInfo(call.id) !in after.files ==>
          forall p <- paths :: p !in after.files)
  }

  lemma CleanUpEffect(disk: Disk, call: Call, env: Env)
    requires call.Complete?
    ensures var after := CleanUp(disk, call, env);
            var paths := Residue(call, |call.parts|);
            && Same(disk, after, paths + {UploadInfo(call.id)})
            && (TmpOk(disk) ==> TmpOk(after))
            && OnlyRemoved(disk, after, call, paths)
  {
    var paths := Residue(call, |call.parts|);
    var swept := Swept(disk, paths, env);
    assert UploadInfo(call.id) !in paths;
    hide Residue;
    assert OnlyRemoved(disk, swept, call, paths);
    if !LeavesResidue(disk, paths, env) {
      forall p <- paths ensures p !in swept.files {
        assert p in env.stuck && p in disk.files ==> p in paths * env.stuck * disk.files.Keys;
      }
    }
  }

  /** Everything a completion may change. */
  function Touched(call: Call): set<Path>
    requires call.Complete?
  {
    Own(call) + Residue(call, |call.parts|) + {UploadInfo(call.id)}
  }

  lemma OnlyRemovedVia(a: Disk, b: Disk, c: Disk, call: Call)
    requires call.Complete? && Same(a, b, Own(call)) && OnlyRemoved(b, c, call, Residue(call, |call.parts|))
    ensures OnlyRemoved(a, c, call, Residue(call, |call.parts|))
  {
    var paths := Residue(call, |call.parts|) + {UploadInfo(call.id)};
    forall p <- paths ensures Lookup(a, p) == Lookup(b, p) {
      assert p !in Own(call) && !p.Tmp?;
    }
  }

  lemma NothingRemoved(a: Disk, b: Disk, call: Call)
    requires call.Complete? && Same(a, b, Own(call))
    ensures OnlyRemoved(a, b, call, Residue(call, |call.parts|))
  {
    var paths := Residue(call, |call.parts|) + {UploadInfo(call.id)};
    forall p <- paths ensures Lookup(a, p) == Lookup(b, p) {
      assert p !in Own(call) && !p.Tmp?;
    }
    assert UploadInfo(call.id) in paths;
  }

  /** The changes of a completion, from some point of it on. */
  ghost predicate CompletionSoFar(a: Disk, b: Disk, call: Call)
    requires call.Complete?
  {
    && Same(a, b, Touched(call))
    && (TmpOk(a) ==> TmpOk(b))
    && OnlyRemoved(a, b, call, Residue(call, |call.parts|))
  }

  lemma CompletionGoesOn(a: Disk, b: Disk, c: Disk, call: Call)
    requires call.Complete? && Same(a, b, Own(call)) && (TmpOk(a) ==> TmpOk(b)) && CompletionSoFar(b, c, call)
    ensures CompletionSoFar(a, c, call)
  {
    hide Same, TmpOk, OnlyRemoved, Residue;
    SameTrans(a, b, c, Own(call), Touched(call));
    SameMore(a, c, Own(call) + Touched(call), Touched(call));
    OnlyRemovedVia(a, b, c, call);
  }

  lemma CompletionStops(a: Disk, b: Disk, call: Call)
    requires call.Complete? && Same(a, b, Own(call)) && (TmpOk(a) ==> TmpOk(b))
    ensures CompletionSoFar(a, b, call)
  {
    hide Same, TmpOk, OnlyRemoved, Residue;
    SameMore(a, b, Own(call), Touched(call));
    NothingRemoved(a, b, call);
  }

  lemma CleanedUp(disk: Disk, call: Call, env: Env)
    requires call.Complete?
    ensures CompletionSoFar(disk, CleanUp(disk, call, env), call)
    ensures var p := ObjectFile(call.bucket, call.key); Lookup(CleanUp(disk, call, env), p) == Lookup(disk, p)
  {
    hide Same, TmpOk, OnlyRemoved;
    CleanUpEffect(disk, call, env);
    var paths := Residue(call, |call.parts|) + {UploadInfo(call.id)};
    SameMore(disk, CleanUp(disk, call, env), paths, Touched(call));
    SameAt(disk, CleanUp(disk, call, env), ObjectFile(call.bucket, call.key), paths);
  }

  lemma RecordEffect(disk: Disk, call: Call, attrs: Option<Blob>, bytes: seq<Byte>, env: Env)
    requires call.Complete?
    ensures var after := Record(disk, call, attrs, bytes, env).1;
            var p := ObjectFile(call.bucket, call.key);
            CompletionSoFar(disk, after, call) && Lookup(after, p) == Lookup(disk, p)
  {
    hide Same, TmpOk, OnlyRemoved, Residue, WriteFile, CompletionSoFar, CleanUp;
    var obj := ObjectFile(call.bucket, call.key);
    var meta, internal := Attributes(call.bucket, call.key, None), Internal(call.bucket, call.key);
    var saved := if attrs.None? then (true, disk) else WriteFile(disk, meta, attrs.value, env);
    if attrs.None? {
      SameRefl(disk, {meta});
    } else {
      WriteFileEffect(disk, meta, attrs.value, env);
    }
    SameMore(disk, saved.1, {meta}, Own(call));
    SameAt(disk, saved.1, obj, {meta});
    CompletionStops(disk, saved.1, call);
    if saved.0 {
      var info := Meta(call.checks.info(bytes));
      var noted := WriteFile(saved.1, internal, info, env);
      WriteFileEffect(saved.1, internal, info, env);
      SameAt(saved.1, noted.1, obj, {internal});
      SameTrans(disk, saved.1, noted.1, Own(call), {internal});
      SameMore(disk, noted.1, Own(call) + {internal}, Own(call));
      CompletionStops(disk, noted.1, call);
      CleanedUp(noted.1, call, env);
      CompletionGoesOn(disk, noted.1, CleanUp(noted.1, call, env), call);
    }
  }

  /**
   * A completion changes the object only by the final rename, which makes it the joined parts; it only
   * removes files of the upload, and retires the upload only when nothing it lists is left.
   */
  lemma CompleteEffect(disk: Disk, call: Call, env: Env)
    requires call.Complete?
    ensures var after := CompleteUpload(disk, call, env).1;
            && CompletionSoFar(disk, after, call)
            && Lookup(after, ObjectFile(call.bucket, call.key)) ==
               (if Commits(disk, call, env) then Some(Data(Joined(disk, call.id, |call.parts|)))
                else Lookup(disk, ObjectFile(call.bucket, call.key)))
    ensures CompleteUpload(disk, call, env).0.Success? ==> Commits(disk, call, env)
    ensures !Verified(disk, call.id, call.cred) ==> CompleteUpload(disk, call, env).1 == disk
  {
    hide Same, TmpOk, CompletionSoFar, Finish, Prepare, Drop, Record, Assemble, Refusal, PartsGood, Joined;
    hide Verified, Own;
    var obj := ObjectFile(call.bucket, call.key);
    SameRefl(disk, Own(call));
    CompletionStops(disk, disk, call);
    RefusalVerifies(disk, call);
    if Refusal(disk, call).None? {
      var r := Prepare(disk, env);
      PrepareEffect(disk, env);
      SameMore(disk, r.1, {}, Own(call));
      SameAt(disk, r.1, obj, {});
      CompletionStops(disk, r.1, call);
      if r.0.Some? {
        AssembleSame(disk, r.1, call, |call.parts|);
        AssembleExact(disk, call, |call.parts|);
        var all := Assemble(r.1, call, |call.parts|);
        var full := r.1.(files := r.1.files[r.0.value := Data(all.bytes)]);
        FillEffect(r.1, r.0.value, Data(all.bytes));
        SameTrans(disk, r.1, full, {}, {});
        SameMore(disk, full, {} + {}, {});
        CompleteFilled(disk, full, r.0.value, call, env, all.bytes);
      }
    }
  }

  lemma RefusalVerifies(disk: Disk, call: Call)
    requires call.Complete?
    ensures Refusal(disk, call).None? ==> Verified(disk, call.id, call.cred)
    ensures Refusal(disk, call) != Some(Success)
  {
  }

  /** With the temporary file filled: it is dropped, or renamed and recorded. */
  lemma CompleteFilled(disk: Disk, full: Disk, tmp: Path, call: Call, env: Env, bytes: seq<Byte>)
    requires call.Complete? && tmp.Tmp? && tmp in full.files && full.files[tmp] == Data(bytes)
    requires Same(disk, full, {}) && (TmpOk(disk) ==> TmpOk(full))
    ensures var obj := ObjectFile(call.bucket, call.key);
            && CompletionSoFar(disk, Drop(full, tmp, env), call)
            && Lookup(Drop(full, tmp, env), obj) == Lookup(disk, obj)
    ensures var obj := ObjectFile(call.bucket, call.key);
            var renamed := Finish(full, tmp, obj, env);
            && CompletionSoFar(disk, renamed.1, call)
            && (renamed.0 <==> obj !in env.unwritable)
            && (!renamed.0 ==> Lookup(renamed.1, obj) == Lookup(disk, obj))
            && forall attrs | renamed.0 ::
                 var after := Record(renamed.1, call, attrs, bytes, env).1;
                 CompletionSoFar(disk, after, call) && Lookup(after, obj) == Some(Data(bytes))
  {
    hide Same, TmpOk, CompletionSoFar, Finish, Drop, Record;
    var obj := ObjectFile(call.bucket, call.key);
    DropEffect(full, tmp, env);
    SameTrans(disk, full, Drop(full, tmp, env), {}, {});
    SameMore(disk, Drop(full, tmp, env), {} + {}, Own(call));
    SameAt(disk, Drop(full, tmp, env), obj, {} + {});
    CompletionStops(disk, Drop(full, tmp, env), call);
    var renamed := Finish(full, tmp, obj, env);
    FinishEffect(full, tmp, obj, env);
    SameAt(disk, full, obj, {});
    SameTrans(disk, full, renamed.1, {}, {obj});
    SameMore(disk, renamed.1, {} + {obj}, Own(call));
    CompletionStops(disk, renamed.1, call);
    forall attrs | renamed.0
      ensures var after := Record(renamed.1, call, attrs, bytes, env).1;
              CompletionSoFar(disk, after, call) && Lookup(after, obj) == Some(Data(bytes))
    {
      RecordEffect(renamed.1, call, attrs, bytes, env);
      CompletionGoesOn(disk, renamed.1, Record(renamed.1, call, attrs, bytes, env).1, call);
    }
  }

  // ----- Abortion

  /** The files of an upload may have been removed, none was added or changed. */
  ghost predicate OnlyFewer(a: Disk, b: Disk, id: Id) {
    && b.counter == a.counter
    && (forall p :: p in b.files ==> p in a.files && b.files[p] == a.files[p])
    && (forall p :: p in a.files && !p.Of(id) ==> p in b.files)
  }

  lemma RemoveEffect(disk: Disk, p: Path, id: Id, env: Env)
    requires p.Of(id)
    ensures var r := Remove(disk, p, env);
            && OnlyFewer(disk, r.1, id)
            && (r.0 <==> p !in r.1.files)
            && (p !in env.stuck ==> r.0)
            && (forall q :: q != p && q in disk.files ==> q in r.1.files)
  {
  }

  lemma FewerTrans(a: Disk, b: Disk, c: Disk, id: Id)
    requires OnlyFewer(a, b, id) && OnlyFewer(b, c, id)
    ensures OnlyFewer(a, c, id)
  {
  }

  ghost predicate IsPartOf(p: Path, id: Id) {
    (p.PartFile? || p.PartInfo?) && p.id == id
  }

  lemma {:induction false} RemovePartsEffect(disk: Disk, id: Id, order: seq<Path>, env: Env)
    ensures var r := RemoveParts(disk, id, order, env);
            && OnlyFewer(disk, r.1, id)
            && (r.0 ==> forall p <- order :: IsPartOf(p, id) ==> p !in r.1.files)
            && (forall q :: q in disk.files && !IsPartOf(q, id) ==> q in r.1.files)
            && (env.stuck == {} ==> r.0)
    decreases |order|
  {
    if order != [] {
      var p := order[0];
      assert order == [p] + order[1..];
      if IsPartOf(p, id) {
        RemoveEffect(disk, p, id, env);
        var removed := Remove(disk, p, env);
        if removed.0 {
          RemovePartsEffect(removed.1, id, order[1..], env);
          FewerTrans(disk, removed.1, RemoveParts(disk, id, order, env).1, id);
        }
      } else {
        RemovePartsEffect(disk, id, order[1..], env);
      }
    }
  }

  /** The directory listing names every part file. */
  ghost predicate Lists(order: seq<Path>, disk: Disk, id: Id) {
    forall p <- disk.files :: IsPartOf(p, id) ==> p in order
  }

  /** The upload's attribute files bear its own bucket and key. */
  ghost predicate OwnAttributes(disk: Disk, id: Id, bucket: string, key: string) {
    forall p <- disk.files :: p.Attributes? && p.upload == Some(id) ==> p.bucket == bucket && p.key == key
  }

  lemma AbortFewer(disk: Disk, call: Call, env: Env)
    requires call.Abort?
    ensures OnlyFewer(disk, AbortUpload(disk, call, env).1, call.id)
  {
    hide Remove, RemoveParts;
    var meta := Remove(disk, Attributes(call.bucket, call.key, Some(call.id)), env);
    RemoveEffect(disk, Attributes(call.bucket, call.key, Some(call.id)), call.id, env);
    var parts := RemoveParts(meta.1, call.id, call.order, env);
    RemovePartsEffect(meta.1, call.id, call.order, env);
    FewerTrans(disk, meta.1, parts.1, call.id);
    RemoveEffect(parts.1, UploadInfo(call.id), call.id, env);
    FewerTrans(disk, parts.1, Remove(parts.1, UploadInfo(call.id), env).1, call.id);
  }

  /** Aborting retires the upload only when none of its files is left; if no removal fails, it does. */
  lemma AbortEffect(disk: Disk, call: Call, env: Env)
    requires call.Abort? && Lists(call.order, disk, call.id) && OwnAttributes(disk, call.id, call.bucket, call.key)
    ensures var r := AbortUpload(disk, call, env);
            && (UploadInfo(call.id) in disk.files && UploadInfo(call.id) !in r.1.files ==>
                  r.0.Success? && forall p <- r.1.files :: !p.Of(call.id))
            && (!Verified(disk, call.id, call.cred) ==> r == (AccessDenied, disk))
            && (r.0.Success? ==> forall p <- r.1.files :: !p.Of(call.id))
            && (Verified(disk, call.id, call.cred) && env.stuck == {} ==> r.0.Success?)
  {
    hide Remove, RemoveParts;
    AbortFewer(disk, call, env);
    var attrs := Attributes(call.bucket, call.key, Some(call.id));
    if Verified(disk, call.id, call.cred) {
      var meta := Remove(disk, attrs, env);
      RemoveEffect(disk, attrs, call.id, env);
      if meta.0 {
        var parts := RemoveParts(meta.1, call.id, call.order, env);
        RemovePartsEffect(meta.1, call.id, call.order, env);
        FewerTrans(disk, meta.1, parts.1, call.id);
        if parts.0 {
          var last := Remove(parts.1, UploadInfo(call.id), env);
          RemoveEffect(parts.1, UploadInfo(call.id), call.id, env);
          FewerTrans(disk, parts.1, last.1, call.id);
          forall p <- last.1.files ensures last.0 ==> !p.Of(call.id) {
            assert p in parts.1.files && p in meta.1.files && p in disk.files;
          }
        }
      }
    }
  }

  // ----- Every run

  /** What became of an upload: still there, aborted, or completed with this many parts. */
  datatype Fate = Live | Aborted | Completed(parts: nat)

  datatype Entry = Entry(bucket: string, key: string, fate: Fate)

  type Log = map<Id, Entry>

  /** The log of uploads, read off the upload files that come and go. */
  ghost function Track(log: Log, call: Call, before: Disk, after: Disk): Log {
    var info := UploadInfo(call.id);
    if call.Create? && info in after.files then log[call.id := Entry(call.bucket, call.key, Live)]
    else if call.id in log && info in before.files && info !in after.files then
      log[call.id := log[call.id].(fate := if call.Complete? then Completed(|call.parts|) else Aborted)]
    else log
  }

  /** Fresh identifiers, the upload's own bucket and key, and a directory listing that is complete. */
  ghost predicate Legal(disk: Disk, log: Log, call: Call) {
    match call
    case Create(id, _, _, _, _) => id !in log && forall p <- disk.files :: !p.Of(id)
    case _ =>
      && (call.id in log ==> log[call.id].bucket == call.bucket && log[call.id].key == call.key)
      && (call.Abort? ==> Lists(call.order, disk, call.id))
  }

  /** Where a file may be: the files of a retired upload are gone, save parts that its completion did not list. */
  ghost predicate FileOk(disk: Disk, log: Log, p: Path) {
    match p
    case UploadInfo(id) => id in log && log[id].fate.Live?
    case Attributes(b, k, u) =>
      u.Some? ==> u.value in log && log[u.value].fate.Live? && b == log[u.value].bucket && k == log[u.value].key
    case PartFile(id, n) => id in log && MayKeep(log[id].fate, n)
    case PartInfo(id, n) => id in log && MayKeep(log[id].fate, n)
    case Tmp(n) => n < disk.counter
    case _ => true
  }

  predicate MayKeep(fate: Fate, n: int) {
    fate.Live? || (fate.Completed? && !(1 <= n <= fate.parts))
  }

  ghost predicate Inv(disk: Disk, log: Log) {
    && (forall p <- disk.files :: FileOk(disk, log, p))
    && (forall id <- log :: log[id].fate.Live? ==> UploadInfo(id) in disk.files)
  }

  lemma InvTmp(disk: Disk, log: Log)
    requires Inv(disk, log)
    ensures TmpOk(disk)
  {
  }

  lemma CreateKeeps(disk: Disk, log: Log, call: Call, env: Env)
    requires Inv(disk, log) && Legal(disk, log, call) && call.Create?
    ensures var after := CreateUpload(disk, call, env).1; Inv(after, Track(log, call, disk, after))
  {
    hide CreateUpload;
    var after := CreateUpload(disk, call, env).1;
    CreateEffect(disk, call, env);
    InvTmp(disk, log);
    var info, attrs := UploadInfo(call.id), Attributes(call.bucket, call.key, Some(call.id));
    var now := Track(log, call, disk, after);
    forall p <- after.files ensures FileOk(after, now, p) {
      if !p.Tmp? && p != info && p != attrs {
        assert Lookup(disk, p) == Lookup(after, p);
        assert FileOk(disk, log, p);
      }
    }
    forall id <- now | now[id].fate.Live? ensures UploadInfo(id) in after.files {
      assert id != call.id ==> Lookup(disk, UploadInfo(id)) == Lookup(after, UploadInfo(id));
    }
  }

  lemma UploadKeeps(disk: Disk, log: Log, call: Call, env: Env)
    requires Inv(disk, log) && call.Upload?
    ensures var after := UploadPart(disk, call, env).1; Inv(after, Track(log, call, disk, after))
  {
    hide UploadPart;
    var after := UploadPart(disk, call, env).1;
    UploadEffect(disk, call, env);
    InvTmp(disk, log);
    var file, info := PartFile(call.id, call.part), PartInfo(call.id, call.part);
    assert Lookup(disk, UploadInfo(call.id)) == Lookup(after, UploadInfo(call.id));
    forall p <- after.files ensures FileOk(after, log, p) {
      if !p.Tmp? && p != file && p != info {
        assert Lookup(disk, p) == Lookup(after, p);
        assert FileOk(disk, log, p);
      } else if !p.Tmp? && after != disk {
        assert FileOk(disk, log, UploadInfo(call.id));
      }
    }
    forall id <- log | log[id].fate.Live? ensures UploadInfo(id) in after.files {
      assert Lookup(disk, UploadInfo(id)) == Lookup(after, UploadInfo(id));
    }
  }

  lemma AbortKeeps(disk: Disk, log: Log, call: Call, env: Env)
    requires Inv(disk, log) && Legal(disk, log, call) && call.Abort?
    ensures var after := AbortUpload(disk, call, env).1; Inv(after, Track(log, call, disk, after))
  {
    hide AbortUpload;
    var after := AbortUpload(disk, call, env).1;
    assert OwnAttributes(disk, call.id, call.bucket, call.key) by {
      forall p <- disk.files
        ensures p.Attributes? && p.upload == Some(call.id) ==> p.bucket == call.bucket && p.key == call.key
      {
        assert FileOk(disk, log, p);
      }
    }
    AbortEffect(disk, call, env);
    AbortFewer(disk, call, env);
    var now := Track(log, call, disk, after);
    forall p <- after.files ensures FileOk(after, now, p) {
      assert FileOk(disk, log, p);
    }
  }

  lemma CompleteKeeps(disk: Disk, log: Log, call: Call, env: Env)
    requires Inv(disk, log) && Legal(disk, log, call) && call.Complete?
    ensures var after := CompleteUpload(disk, call, env).1; Inv(after, Track(log, call, disk, after))
  {
    hide CompleteUpload, Joined, Commits, Residue, Own, OnlyRemoved;
    var after := CompleteUpload(disk, call, env).1;
    CompleteEffect(disk, call, env);
    InvTmp(disk, log);
    var now := Track(log, call, disk, after);
    forall p <- after.files ensures FileOk(after, now, p) {
      CompletedFile(disk, log, after, call, p);
    }
    forall id <- now | now[id].fate.Live? ensures UploadInfo(id) in after.files {
      if id != call.id {
        NotTouched(call, id);
        assert Lookup(disk, UploadInfo(id)) == Lookup(after, UploadInfo(id));
      }
    }
  }

  lemma NotTouched(call: Call, id: Id)
    requires call.Complete? && id != call.id
    ensures UploadInfo(id) !in Touched(call)
  {
  }

  lemma CompletedFile(disk: Disk, log: Log, after: Disk, call: Call, p: Path)
    requires Inv(disk, log) && Legal(disk, log, call) && call.Complete?
    requires CompletionSoFar(disk, after, call) && TmpOk(after) && p in after.files
    ensures FileOk(after, Track(log, call, disk, after), p)
  {
    if p !in Own(call) && !p.Tmp? {
      assert p in disk.files by {
        if p !in Touched(call) { assert Lookup(disk, p) == Lookup(after, p); }
      }
      assert FileOk(disk, log, p);
    }
  }

  lemma StepKeeps(disk: Disk, log: Log, call: Call, env: Env)
    requires Inv(disk, log) && Legal(disk, log, call)
    ensures var after := Step(disk, call, env).1; Inv(after, Track(log, call, disk, after))
  {
    hide Inv, Legal, Track, CreateUpload, UploadPart, CompleteUpload, AbortUpload;
    match call
    case Create(_, _, _, _, _) => CreateKeeps(disk, log, call, env);
    case Upload(_, _, _, _, _, _, _, _) => UploadKeeps(disk, log, call, env);
    case Complete(_, _, _, _, _, _) => CompleteKeeps(disk, log, call, env);
    case Abort(_, _, _, _, _) => AbortKeeps(disk, log, call, env);
  }

  type Script = seq<(Call, Env)>

  function Run(disk: Disk, script: Script): Disk
    decreases |script|
  {
    if script == [] then disk else Run(Step(disk, script[0].0, script[0].1).1, script[1..])
  }

  ghost function RunLog(disk: Disk, log: Log, script: Script): Log
    decreases |script|
  {
    if script == [] then log
    else
      var after := Step(disk, script[0].0, script[0].1).1;
      RunLog(after, Track(log, script[0].0, disk, after), script[1..])
  }

  ghost predicate LegalRun(disk: Disk, log: Log, script: Script)
    decreases |script|
  {
    script == [] ||
    (Legal(disk, log, script[0].0) &&
     var after := Step(disk, script[0].0, script[0].1).1;
     LegalRun(after, Track(log, script[0].0, disk, after), script[1..]))
  }

  /**
   * Over every run, whatever fails: an aborted upload leaves no file, a completed one only parts it did
   * not list, and an upload whose identifier is still there can still be completed or aborted.
   */
  lemma {:induction false} EveryRun(disk: Disk, log: Log, script: Script)
    requires Inv(disk, log) && LegalRun(disk, log, script)
    ensures Inv(Run(disk, script), RunLog(disk, log, script))
    decreases |script|
  {
    hide Inv, Legal, Track, Step;
    if script != [] {
      var after := Step(disk, script[0].0, script[0].1).1;
      StepKeeps(disk, log, script[0].0, script[0].1);
      EveryRun(after, Track(log, script[0].0, disk, after), script[1..]);
    }
  }

  /** An empty directory is a good start. */
  lemma EmptyStart(counter: nat)
    ensures Inv(Disk(map[], counter), map[])
  {
  }

  /** The completion at step `i` of the run made the object what it is. */
  ghost predicate MadeAt(disk: Disk, script: Script, bucket: string, key: string, i: nat) {
    i < |script| &&
    var before := Run(disk, script[..i]);
    var call := script[i].0;
    && call.Complete? && call.bucket == bucket && call.key == key && Commits(before, call, script[i].1)
    && Lookup(Run(disk, script), ObjectFile(bucket, key)) == Some(Data(Joined(before, call.id, |call.parts|)))
  }

  /** One step leaves an object alone, unless it is the completion that makes it. */
  lemma ObjectStep(disk: Disk, call: Call, env: Env, bucket: string, key: string)
    ensures var p := ObjectFile(bucket, key);
            var mine := call.Complete? && call.bucket == bucket && call.key == key && Commits(disk, call, env);
            Lookup(Step(disk, call, env).1, p) ==
            (if mine then Some(Data(Joined(disk, call.id, |call.parts|))) else Lookup(disk, p))
  {
    hide CreateUpload, UploadPart, CompleteUpload, AbortUpload, Joined, Commits;
    var p := ObjectFile(bucket, key);
    match call
    case Create(_, _, _, _, _) => CreateEffect(disk, call, env);
    case Upload(_, _, _, _, _, _, _, _) => UploadEffect(disk, call, env);
    case Complete(_, _, _, _, _, _) =>
      CompleteEffect(disk, call, env);
      assert p != ObjectFile(call.bucket, call.key) ==> p !in Touched(call);
    case Abort(_, _, _, _, _) => AbortFewer(disk, call, env);
  }

  lemma {:induction false} RunSplits(disk: Disk, script: Script, i: nat)
    requires i <= |script|
    ensures Run(disk, script) == Run(Run(disk, script[..i]), script[i..])
    decreases |script|
  {
    hide Step;
    if i == 0 {
      assert script[..0] == [] && script[0..] == script;
    } else {
      assert script[..i][0] == script[0] && script[..i][1..] == script[1..][..i - 1];
      assert script[1..][i - 1..] == script[i..];
      RunSplits(Step(disk, script[0].0, script[0].1).1, script[1..], i - 1);
    }
  }

  /** After every run, an object is what it was, or what some completion of the run made of its parts. */
  lemma {:induction false} ObjectHistory(disk: Disk, script: Script, bucket: string, key: string)
    ensures
      || Lookup(Run(disk, script), ObjectFile(bucket, key)) == Lookup(disk, ObjectFile(bucket, key))
      || exists i: nat :: MadeAt(disk, script, bucket, key, i)
    decreases |script|
  {
    hide Step, Joined, Commits;
    if script != [] {
      var n := |script| - 1;
      var init := script[..n];
      var before := Run(disk, init);
      var call, env := script[n].0, script[n].1;
      RunSplits(disk, script, n);
      assert script[n..] == [script[n]] && [script[n]][1..] == [];
      ObjectStep(before, call, env, bucket, key);
      ObjectHistory(disk, init, bucket, key);
      if Lookup(Run(disk, script), ObjectFile(bucket, key)) != Lookup(before, ObjectFile(bucket, key)) {
        assert MadeAt(disk, script, bucket, key, n);
      } else if i: nat :| MadeAt(disk, init, bucket, key, i) {
        assert init[..i] == script[..i] && init[i] == script[i];
        assert MadeAt(disk, script, bucket, key, i);
      }
    }
  }
}
