/** What the multipart calls answer and store, exactly, and whose bytes an object holds after a run. */
module UploadResults {
  import opened Bytes
  import opened Uploads
  import opened UploadRuns

  // ----- Single calls, exactly

  predicate Writable(env: Env, disk: Disk, dest: Path) {
    Tmp(disk.counter) !in env.unwritable && dest !in env.unwritable
  }

  lemma WriteFileExact(disk: Disk, dest: Path, blob: Blob, env: Env)
    ensures var r := WriteFile(disk, dest, blob, env);
            r.1.counter == disk.counter + 1 && (r.0 <==> Writable(env, disk, dest))
  {
  }

  /** The owner recorded for the upload is the caller. */
  predicate OwnedBy(disk: Disk, id: Id, cred: Option<string>) {
    Lookup(disk, UploadInfo(id)) == Some(Owner(cred))
  }

  /** A creation succeeds exactly when both of its files can be written, and then they hold what was asked. */
  lemma CreateExact(disk: Disk, call: Call, env: Env)
    requires call.Create?
    ensures var info, attrs := UploadInfo(call.id), Attributes(call.bucket, call.key, Some(call.id));
            var (r, after) := CreateUpload(disk, call, env);
            var named := Writable(env, disk, info);
            var saved := named && Tmp(disk.counter + 1) !in env.unwritable && attrs !in env.unwritable;
            && r == (if saved then Success else InternalError)
            && Lookup(after, info) == (if named then Some(Owner(call.cred)) else Lookup(disk, info))
            && Lookup(after, attrs) == (if saved then Some(Meta(call.attrs)) else Lookup(disk, attrs))
  {
    hide Same, WriteFile, TmpOk;
    var info, attrs := UploadInfo(call.id), Attributes(call.bucket, call.key, Some(call.id));
    var named := WriteFile(disk, info, Owner(call.cred), env);
    WriteFileExact(disk, info, Owner(call.cred), env);
    WriteFileEffect(disk, info, Owner(call.cred), env);
    SameAt(disk, named.1, attrs, {info});
    if named.0 {
      var saved := WriteFile(named.1, attrs, Meta(call.attrs), env);
      WriteFileExact(named.1, attrs, Meta(call.attrs), env);
      WriteFileEffect(named.1, attrs, Meta(call.attrs), env);
      SameAt(named.1, saved.1, info, {attrs});
    }
  }

  /** The uploaded bytes become the part. */
  predicate Lands(disk: Disk, call: Call, env: Env)
    requires call.Upload?
  {
    && call.part <= 10_000 && OwnedBy(disk, call.id, call.cred)
    && call.digestOk && Writable(env, disk, PartFile(call.id, call.part))
  }

  /** What an upload answers. */
  function UploadAnswer(disk: Disk, call: Call, env: Env): Outcome
    requires call.Upload?
  {
    if call.part > 10_000 then InvalidArgument
    else if !OwnedBy(disk, call.id, call.cred) then AccessDenied
    else if Tmp(disk.counter) in env.unwritable then InternalError
    else if !call.digestOk then BadDigest
    else if PartFile(call.id, call.part) in env.unwritable then InternalError
    else if Tmp(disk.counter + 1) in env.unwritable then InternalError
    else if PartInfo(call.id, call.part) in env.unwritable then InternalError
    else Success
  }

  /**
   * An upload answers as its checks and the writable files say; the part holds the uploaded bytes from
   * the rename on, the part's record what was noted about them on success, and otherwise what they held.
   */
  lemma UploadExact(disk: Disk, call: Call, env: Env)
    requires call.Upload?
    ensures var file, info := PartFile(call.id, call.part), PartInfo(call.id, call.part);
            var (r, after) := UploadPart(disk, call, env);
            && r == UploadAnswer(disk, call, env)
            && Lookup(after, file) == (if Lands(disk, call, env) then Some(Data(call.body)) else Lookup(disk, file))
            && Lookup(after, info) == (if r.Success? then Some(Meta(call.info)) else Lookup(disk, info))
  {
    hide Same, WriteFile, Finish, Drop, TmpOk;
    var file, info := PartFile(call.id, call.part), PartInfo(call.id, call.part);
    var r := Prepare(disk, env);
    PrepareEffect(disk, env);
    SameAt(disk, r.1, file, {});
    SameAt(disk, r.1, info, {});
    if r.0.Some? {
      UploadFilled(disk, r.1, r.0.value, call, env);
    }
  }

  lemma UploadFilled(disk: Disk, started: Disk, tmp: Path, call: Call, env: Env)
    requires call.Upload? && tmp.Tmp? && tmp in started.files && Same(disk, started, {})
    ensures var file, info := PartFile(call.id, call.part), PartInfo(call.id, call.part);
            var full := started.(files := started.files[tmp := Data(call.body)]);
            var dropped, written := Drop(full, tmp, env), Finish(full, tmp, file, env);
            var saved := WriteFile(written.1, info, Meta(call.info), env);
            && Lookup(dropped, file) == Lookup(disk, file) && Lookup(dropped, info) == Lookup(disk, info)
            && (written.0 <==> file !in env.unwritable)
            && Lookup(written.1, file) == (if written.0 then Some(Data(call.body)) else Lookup(disk, file))
            && Lookup(written.1, info) == Lookup(disk, info)
            && (written.0 ==> (saved.0 <==> Writable(env, started, info)))
            && Lookup(saved.1, file) == Lookup(written.1, file)
            && Lookup(saved.1, info) == if saved.0 then Some(Meta(call.info)) else Lookup(disk, info)
  {
    hide Same, WriteFile, Finish, Drop, TmpOk;
    var file, info := PartFile(call.id, call.part), PartInfo(call.id, call.part);
    var full := started.(files := started.files[tmp := Data(call.body)]);
    FillEffect(started, tmp, Data(call.body));
    SameTrans(disk, started, full, {}, {});
    SameAt(disk, full, file, {} + {});
    SameAt(disk, full, info, {} + {});
    DropEffect(full, tmp, env);
    SameAt(full, Drop(full, tmp, env), file, {});
    SameAt(full, Drop(full, tmp, env), info, {});
    var written := Finish(full, tmp, file, env);
    FinishEffect(full, tmp, file, env);
    FinishCounts(full, tmp, file, env);
    SameAt(full, written.1, info, {file});
    WriteFileExact(written.1, info, Meta(call.info), env);
    WriteFileEffect(written.1, info, Meta(call.info), env);
    SameAt(written.1, WriteFile(written.1, info, Meta(call.info), env).1, file, {info});
  }

  lemma FinishCounts(disk: Disk, tmp: Path, dest: Path, env: Env)
    requires tmp in disk.files
    ensures Finish(disk, tmp, dest, env).1.counter == disk.counter
  {
  }

  // ----- Completion, exactly

  /** Part `i` of the list is in its place, agrees with its record, is there, and is large enough. */
  ghost predicate Usable(disk: Disk, call: Call, i: nat)
    requires call.Complete? && 1 <= i <= |call.parts|
  {
    && call.parts[i - 1] == Some(i)
    && call.checks.partOk(i, Lookup(disk, PartInfo(call.id, i)))
    && (exists bytes :: Lookup(disk, PartFile(call.id, i)) == Some(Data(bytes))
                        && (i == |call.parts| || |bytes| >= 5_242_880))
  }

  /** The completion makes the object. */
  ghost predicate Lawful(disk: Disk, call: Call, env: Env)
    requires call.Complete?
  {
    && call.parts != [] && OwnedBy(disk, call.id, call.cred)
    && !call.checks.refuses(
         Lookup(disk, ObjectFile(call.bucket, call.key)), Lookup(disk, Internal(call.bucket, call.key)))
    && (forall i: nat :: 1 <= i <= |call.parts| ==> Usable(disk, call, i))
    && call.checks.digestOk(Joined(disk, call.id, |call.parts|))
    && Writable(env, disk, ObjectFile(call.bucket, call.key))
  }

  /** The writes that follow the rename: the upload's attributes, if there are any, and the record. */
  predicate Recorded(disk: Disk, call: Call, env: Env)
    requires call.Complete?
  {
    var meta, internal := Attributes(call.bucket, call.key, None), Internal(call.bucket, call.key);
    if Attributes(call.bucket, call.key, Some(call.id)) in disk.files then
      {Tmp(disk.counter + 1), meta, Tmp(disk.counter + 2), internal} !! env.unwritable
    else {Tmp(disk.counter + 1), internal} !! env.unwritable
  }

  lemma LawfulCommits(disk: Disk, call: Call, env: Env)
    requires call.Complete?
    ensures Commits(disk, call, env) <==> Lawful(disk, call, env)
  {
    hide Joined;
    forall i: nat | 1 <= i <= |call.parts| ensures PartGood(disk, call, i) <==> Usable(disk, call, i) {
    }
  }

  lemma CleanUpKeeps(disk: Disk, call: Call, env: Env, p: Path)
    requires call.Complete? && p in Own(call)
    ensures Lookup(CleanUp(disk, call, env), p) == Lookup(disk, p)
  {
    hide Same, CleanUp;
    CleanUpEffect(disk, call, env);
    SameAt(disk, CleanUp(disk, call, env), p, Residue(call, |call.parts|) + {UploadInfo(call.id)});
  }

  /** After the rename: what is saved, and that nothing is left of the upload if no removal fails. */
  lemma RecordExact(disk: Disk, call: Call, attrs: Option<Blob>, bytes: seq<Byte>, env: Env)
    requires call.Complete?
    ensures var meta, internal := Attributes(call.bucket, call.key, None), Internal(call.bucket, call.key);
            var (r, after) := Record(disk, call, attrs, bytes, env);
            && r == (if attrs.Some? && !Writable(env, disk, meta) then InternalError
                     else if internal in env.unwritable then InternalError
                     else if Tmp(disk.counter + (if attrs.Some? then 1 else 0)) in env.unwritable then InternalError
                     else Success)
            && (r.Success? ==>
                  && Lookup(after, meta) == (if attrs.Some? then attrs else Lookup(disk, meta))
                  && Lookup(after, internal) == Some(Meta(call.checks.info(bytes)))
                  && (env.stuck == {} ==> forall p <- Residue(call, |call.parts|) + {UploadInfo(call.id)} ::
                                            p !in after.files))
  {
    hide Same, TmpOk, Residue, WriteFile, CleanUp, Own;
    var meta, internal := Attributes(call.bucket, call.key, None), Internal(call.bucket, call.key);
    var saved := if attrs.None? then (true, disk) else WriteFile(disk, meta, attrs.value, env);
    if attrs.Some? {
      WriteFileExact(disk, meta, attrs.value, env);
      WriteFileEffect(disk, meta, attrs.value, env);
    }
    if saved.0 {
      var info := Meta(call.checks.info(bytes));
      var noted := WriteFile(saved.1, internal, info, env);
      WriteFileExact(saved.1, internal, info, env);
      WriteFileEffect(saved.1, internal, info, env);
      SameAt(saved.1, noted.1, meta, {internal});
      OwnPaths(call);
      CleanUpKeeps(noted.1, call, env, meta);
      CleanUpKeeps(noted.1, call, env, internal);
      CleanUpCalm(noted.1, call, env);
    }
  }

  lemma OwnPaths(call: Call)
    ensures Attributes(call.bucket, call.key, None) in Own(call) && Internal(call.bucket, call.key) in Own(call)
  {
  }

  lemma CleanUpCalm(disk: Disk, call: Call, env: Env)
    requires call.Complete?
    ensures env.stuck == {} ==>
              forall p <- Residue(call, |call.parts|) + {UploadInfo(call.id)} :: p !in CleanUp(disk, call, env).files
  {
    hide Residue;
  }

  /**
   * A completion succeeds exactly when it makes the object and its records can be written. The object
   * then has the upload's attributes and the record of its bytes.
   */
  lemma CompleteExact(disk: Disk, call: Call, env: Env)
    requires call.Complete?
    ensures var meta, internal := Attributes(call.bucket, call.key, None), Internal(call.bucket, call.key);
            var attrs := Lookup(disk, Attributes(call.bucket, call.key, Some(call.id)));
            var (r, after) := CompleteUpload(disk, call, env);
            && (r.Success? <==> Lawful(disk, call, env) && Recorded(disk, call, env))
            && (r.Success? ==>
                  && Lookup(after, meta) == (if attrs.Some? then attrs else Lookup(disk, meta))
                  && Lookup(after, internal) == Some(Meta(call.checks.info(Joined(disk, call.id, |call.parts|))))
                  && (env.stuck == {} ==> forall p <- Residue(call, |call.parts|) + {UploadInfo(call.id)} ::
                                            p !in after.files))
  {
    hide Same, TmpOk, Finish, Drop, Record, Assemble, Refusal, PartsGood, Joined, Residue, Lawful;
    LawfulCommits(disk, call, env);
    RefusalVerifies(disk, call);
    if Refusal(disk, call).None? {
      var r := Prepare(disk, env);
      PrepareEffect(disk, env);
      if r.0.Some? {
        AssembleSame(disk, r.1, call, |call.parts|);
        AssembleExact(disk, call, |call.parts|);
        var all := Assemble(r.1, call, |call.parts|);
        var full := r.1.(files := r.1.files[r.0.value := Data(all.bytes)]);
        var obj, meta := ObjectFile(call.bucket, call.key), Attributes(call.bucket, call.key, None);
        FillEffect(r.1, r.0.value, Data(all.bytes));
        FinishEffect(full, r.0.value, obj, env);
        FinishCounts(full, r.0.value, obj, env);
        var renamed := Finish(full, r.0.value, obj, env);
        SameAt(disk, r.1, meta, {});
        SameAt(r.1, full, meta, {});
        SameAt(full, renamed.1, meta, {obj});
        var attrs := Lookup(disk, Attributes(call.bucket, call.key, Some(call.id)));
        RecordExact(renamed.1, call, attrs, all.bytes, env);
      }
    }
  }

  /** Part `i` is the first of the list that cannot be used. */
  ghost predicate FirstBad(disk: Disk, call: Call, i: nat)
    requires call.Complete?
  {
    1 <= i <= |call.parts| && !Usable(disk, call, i) && forall j: nat :: 1 <= j < i ==> Usable(disk, call, j)
  }

  /** What is wrong with a part that cannot be used. */
  function Complaint(disk: Disk, call: Call, i: nat): Outcome
    requires call.Complete? && 1 <= i <= |call.parts|
  {
    if call.parts[i - 1] != Some(i) then InvalidRequest
    else if !call.checks.partOk(i, Lookup(disk, PartInfo(call.id, i))) then InvalidPart
    else match Lookup(disk, PartFile(call.id, i))
      case Some(Data(bytes)) => EntityTooSmall
      case _ => InternalError
  }

  lemma {:induction false} AssembleStops(disk: Disk, call: Call, i: nat, n: nat)
    requires call.Complete? && FirstBad(disk, call, i) && i <= n <= |call.parts|
    ensures Assemble(disk, call, n).error == Some(Complaint(disk, call, i))
  {
    if n > i {
      AssembleStops(disk, call, i, n - 1);
    } else {
      AssembleExact(disk, call, i - 1);
      assert forall j: nat :: 1 <= j < i ==> Usable(disk, call, j) ==> PartGood(disk, call, j);
    }
  }

  /** What a completion answers when it does not make the object: the first thing that is wrong. */
  lemma CompleteRefuses(disk: Disk, call: Call, env: Env)
    requires call.Complete?
    ensures var r := CompleteUpload(disk, call, env).0;
            var was := Lookup(disk, ObjectFile(call.bucket, call.key));
            var noted := Lookup(disk, Internal(call.bucket, call.key));
            if call.parts == [] then r == InvalidPart
            else if !OwnedBy(disk, call.id, call.cred) then r == AccessDenied
            else if call.checks.refuses(was, noted) then r == PreconditionFailed
            else if Tmp(disk.counter) in env.unwritable then r == InternalError
            else
              && (forall i: nat :: FirstBad(disk, call, i) ==> r == Complaint(disk, call, i))
              && ((forall i: nat :: 1 <= i <= |call.parts| ==> Usable(disk, call, i)) ==>
                    if !call.checks.digestOk(Joined(disk, call.id, |call.parts|)) then r == BadDigest
                    else ObjectFile(call.bucket, call.key) in env.unwritable ==> r == InternalError)
  {
    hide Assemble, Record, Finish, Drop, Joined, Usable, Complaint;
    var started := Prepare(disk, env);
    if Refusal(disk, call).None? && started.0.Some? {
      PrepareEffect(disk, env);
      AssembleSame(disk, started.1, call, |call.parts|);
      AssembleExact(disk, call, |call.parts|);
      forall i: nat | FirstBad(disk, call, i)
        ensures Assemble(started.1, call, |call.parts|).error == Some(Complaint(disk, call, i))
      {
        AssembleStops(disk, call, i, |call.parts|);
      }
      UsableGood(disk, call);
      var all := Assemble(started.1, call, |call.parts|);
      var full := started.1.(files := started.1.files[started.0.value := Data(all.bytes)]);
      FinishEffect(full, started.0.value, ObjectFile(call.bucket, call.key), env);
    }
  }

  lemma UsableGood(disk: Disk, call: Call)
    requires call.Complete?
    ensures PartsGood(disk, call, |call.parts|) <==>
            forall i: nat :: 1 <= i <= |call.parts| ==> Usable(disk, call, i)
  {
    forall i: nat | 1 <= i <= |call.parts| ensures PartGood(disk, call, i) <==> Usable(disk, call, i) {
    }
  }

  // ----- Whose bytes

  /** This upload lands as part `n` of upload `id`. */
  ghost predicate Stores(disk: Disk, call: Call, env: Env, id: Id, n: int) {
    call.Upload? && call.id == id && call.part == n && Lands(disk, call, env)
  }

  /** One call leaves a part alone or removes it, unless it is the upload that stores it. */
  lemma PartStep(disk: Disk, call: Call, env: Env, id: Id, n: int)
    ensures var before, after := Lookup(disk, PartFile(id, n)), Lookup(Step(disk, call, env).1, PartFile(id, n));
            if Stores(disk, call, env, id, n) then after == Some(Data(call.body))
            else after == before || (after.None? && (call.Complete? || call.Abort?) && call.id == id)
  {
    hide CreateUpload, UploadPart, CompleteUpload, AbortUpload, Lands, TmpOk;
    var p := PartFile(id, n);
    match call
    case Create(_, _, _, _, _) => CreateEffect(disk, call, env);
    case Upload(_, _, _, _, _, _, _, _) =>
      UploadEffect(disk, call, env);
      UploadExact(disk, call, env);
    case Complete(_, _, _, _, _, _) =>
      CompleteEffect(disk, call, env);
      PartCompleted(disk, CompleteUpload(disk, call, env).1, call, id, n);
    case Abort(_, _, _, _, _) => AbortFewer(disk, call, env);
  }

  lemma PartCompleted(disk: Disk, after: Disk, call: Call, id: Id, n: int)
    requires call.Complete? && CompletionSoFar(disk, after, call)
    ensures var p := PartFile(id, n);
            Lookup(after, p) == Lookup(disk, p) || (Lookup(after, p).None? && call.id == id)
  {
    var p := PartFile(id, n);
    if p in Touched(call) {
      assert p in Residue(call, |call.parts|);
      assert p in Residue(call, |call.parts|) + {UploadInfo(call.id)};
    }
  }

  /** Call `i` of the run stored part `n` with these bytes, and no later call stored it. */
  ghost predicate LastStored(disk: Disk, script: Script, id: Id, n: int, body: seq<Byte>, i: nat) {
    && i < |script|
    && Stores(Run(disk, script[..i]), script[i].0, script[i].1, id, n) && script[i].0.body == body
    && forall j: nat :: i < j < |script| ==> !StoredAt(disk, script, id, n, j)
  }

  ghost predicate StoredAt(disk: Disk, script: Script, id: Id, n: int, j: nat) {
    j < |script| && Stores(Run(disk, script[..j]), script[j].0, script[j].1, id, n)
  }

  /** After every run, a part that is there holds the bytes of the last upload that stored it. */
  lemma {:induction false} PartHistory(disk: Disk, script: Script, id: Id, n: int)
    ensures var now := Lookup(Run(disk, script), PartFile(id, n));
            || now.None?
            || (now == Lookup(disk, PartFile(id, n)) && forall j: nat :: !StoredAt(disk, script, id, n, j))
            || (now.value.Data? && exists i: nat :: LastStored(disk, script, id, n, now.value.bytes, i))
    decreases |script|
  {
    hide Step, Lands;
    if script != [] {
      var m := |script| - 1;
      var init, call, env := script[..m], script[m].0, script[m].1;
      var before := Run(disk, init);
      RunSplits(disk, script, m);
      assert script[m..] == [script[m]] && [script[m]][1..] == [];
      PartStep(before, call, env, id, n);
      PartHistory(disk, init, id, n);
      forall j: nat | j < m ensures StoredAt(disk, script, id, n, j) <==> StoredAt(disk, init, id, n, j) {
        assert init[..j] == script[..j] && init[j] == script[j];
      }
      var now := Lookup(Run(disk, script), PartFile(id, n));
      if Stores(before, call, env, id, n) {
        assert LastStored(disk, script, id, n, call.body, m);
      } else if now.Some? && now.value.Data? {
        if i: nat :| LastStored(disk, init, id, n, now.value.bytes, i) {
          assert init[..i] == script[..i] && init[i] == script[i];
          assert LastStored(disk, script, id, n, now.value.bytes, i);
        }
      }
    }
  }

  function Flat(bodies: seq<seq<Byte>>): seq<Byte> {
    if bodies == [] then [] else Flat(bodies[..|bodies| - 1]) + bodies[|bodies| - 1]
  }

  /** `bodies` are what the run last stored as parts 1, 2, ... of upload `id`. */
  ghost predicate Stored(disk: Disk, script: Script, id: Id, bodies: seq<seq<Byte>>) {
    forall k: nat :: k < |bodies| ==> StoredLast(disk, script, id, k + 1, bodies[k])
  }

  ghost predicate StoredLast(disk: Disk, script: Script, id: Id, n: int, body: seq<Byte>) {
    exists i: nat :: LastStored(disk, script, id, n, body, i)
  }

  /** The joined parts are the bodies last stored. */
  lemma {:induction false} JoinedBodies(disk: Disk, script: Script, id: Id, n: nat) returns (bodies: seq<seq<Byte>>)
    requires forall p <- disk.files :: !p.PartFile?
    requires forall i: nat :: 1 <= i <= n ==> PartBytes(Run(disk, script), id, i).Some?
    ensures |bodies| == n && Stored(disk, script, id, bodies)
    ensures Joined(Run(disk, script), id, n) == Flat(bodies)
  {
    hide LastStored, Run;
    bodies := [];
    if n > 0 {
      var front := JoinedBodies(disk, script, id, n - 1);
      PartHistory(disk, script, id, n);
      assert Lookup(disk, PartFile(id, n)).None?;
      var last := PartBytes(Run(disk, script), id, n).value;
      assert StoredLast(disk, script, id, n, last);
      bodies := front + [last];
      assert bodies[..n - 1] == front;
    }
  }

  /** The completion at step `m` made the object of the bodies that the run had stored by then. */
  ghost predicate MadeOf(disk: Disk, script: Script, bucket: string, key: string, m: nat, bodies: seq<seq<Byte>>) {
    && m < |script| && script[m].0.Complete? && script[m].0.bucket == bucket && script[m].0.key == key
    && Lawful(Run(disk, script[..m]), script[m].0, script[m].1)
    && |bodies| == |script[m].0.parts| && Stored(disk, script[..m], script[m].0.id, bodies)
  }

  /**
   * Over every run from a directory without parts, whatever fails: an object is what it was, or the
   * bodies, end to end, of the uploads that last stored the parts of a completed upload.
   */
  lemma ObjectIsUploads(disk: Disk, script: Script, bucket: string, key: string)
    requires forall p <- disk.files :: !p.PartFile?
    ensures var now := Lookup(Run(disk, script), ObjectFile(bucket, key));
            || now == Lookup(disk, ObjectFile(bucket, key))
            || exists m: nat, bodies :: MadeOf(disk, script, bucket, key, m, bodies) && now == Some(Data(Flat(bodies)))
  {
    hide Run, Lawful, Commits, Joined, Stored, Flat, Lookup;
    ObjectHistory(disk, script, bucket, key);
    if m: nat :| MadeAt(disk, script, bucket, key, m) {
      var before, call := Run(disk, script[..m]), script[m].0;
      LawfulCommits(before, call, script[m].1);
      LawfulParts(before, call, script[m].1);
      var bodies := JoinedBodies(disk, script[..m], call.id, |call.parts|);
      assert MadeOf(disk, script, bucket, key, m, bodies);
    }
  }

  lemma LawfulParts(disk: Disk, call: Call, env: Env)
    requires call.Complete? && Lawful(disk, call, env)
    ensures forall i: nat :: 1 <= i <= |call.parts| ==> PartBytes(disk, call.id, i).Some?
  {
    forall i: nat | 1 <= i <= |call.parts| ensures PartBytes(disk, call.id, i).Some? {
      assert Usable(disk, call, i);
    }
  }

  // ----- A whole upload

  /** What a client sends: the parts of an upload, and what is noted about each. */
  datatype Plan = Plan(
    id: Id, cred: Option<string>, bucket: string, key: string, attrs: string,
    bodies: seq<seq<Byte>>, notes: seq<string>)
  {
    /** At least one part and at most 10 000, all but the last of at least 5 MiB. */
    predicate Valid() {
      && 1 <= |bodies| <= 10_000 && |notes| == |bodies|
      && forall k :: 0 <= k < |bodies| - 1 ==> |bodies[k]| >= 5_242_880
    }

    function Creation(): Call {
      Create(id, cred, bucket, key, attrs)
    }

    function PartUpload(n: nat): Call
      requires Valid() && 1 <= n <= |bodies|
    {
      Upload(id, cred, bucket, key, n, bodies[n - 1], true, notes[n - 1])
    }

    function Completion(checks: Checks): Call {
      Complete(id, cred, bucket, key, seq(|bodies|, k => Some(k + 1)), checks)
    }

    /** The creation and the first `n` uploads, none of which meets a failing file. */
    function Calls(n: nat): Script
      requires Valid() && n <= |bodies|
    {
      if n == 0 then [(Creation(), Env({}, {}))] else Calls(n - 1) + [(PartUpload(n), Env({}, {}))]
    }

    /** The checks let these parts through, given what is there. */
    ghost predicate Passes(checks: Checks, disk: Disk) {
      && |notes| == |bodies|
      && !checks.refuses(Lookup(disk, ObjectFile(bucket, key)), Lookup(disk, Internal(bucket, key)))
      && (forall k: nat :: k < |bodies| ==> checks.partOk(k + 1, Some(Meta(notes[k]))))
      && checks.digestOk(Flat(bodies))
    }
  }

  /** After the first `n` uploads. */
  ghost predicate Holds(plan: Plan, disk: Disk, now: Disk, n: nat)
    requires plan.Valid() && n <= |plan.bodies|
  {
    && OwnedBy(now, plan.id, plan.cred)
    && Lookup(now, Attributes(plan.bucket, plan.key, Some(plan.id))) == Some(Meta(plan.attrs))
    && (forall k: nat :: k < n ==> HoldsPart(plan, now, k))
    && Lookup(now, ObjectFile(plan.bucket, plan.key)) == Lookup(disk, ObjectFile(plan.bucket, plan.key))
    && Lookup(now, Internal(plan.bucket, plan.key)) == Lookup(disk, Internal(plan.bucket, plan.key))
  }

  predicate HoldsPart(plan: Plan, now: Disk, k: nat)
    requires plan.Valid() && k < |plan.bodies|
  {
    && Lookup(now, PartFile(plan.id, k + 1)) == Some(Data(plan.bodies[k]))
    && Lookup(now, PartInfo(plan.id, k + 1)) == Some(Meta(plan.notes[k]))
  }

  lemma RunLast(disk: Disk, script: Script, call: Call, env: Env)
    ensures Run(disk, script + [(call, env)]) == Step(Run(disk, script), call, env).1
  {
    hide Step;
    var all := script + [(call, env)];
    RunSplits(disk, all, |script|);
    assert all[..|script|] == script && all[|script|..] == [(call, env)];
    assert [(call, env)][1..] == [];
  }

  lemma {:induction false} CallsHold(plan: Plan, disk: Disk, n: nat)
    requires plan.Valid() && n <= |plan.bodies|
    ensures Holds(plan, disk, Run(disk, plan.Calls(n)), n)
    decreases n
  {
    hide CreateUpload, UploadPart, CompleteUpload, AbortUpload, Run, TmpOk;
    var calm := Env({}, {});
    if n == 0 {
      assert plan.Calls(0) == [] + [(plan.Creation(), calm)];
      RunLast(disk, [], plan.Creation(), calm);
      NoCalls(disk);
      CreateExact(disk, plan.Creation(), calm);
      CreateEffect(disk, plan.Creation(), calm);
    } else {
      CallsHold(plan, disk, n - 1);
      var before, call := Run(disk, plan.Calls(n - 1)), plan.PartUpload(n);
      RunLast(disk, plan.Calls(n - 1), call, calm);
      UploadExact(before, call, calm);
      UploadEffect(before, call, calm);
      var now := Run(disk, plan.Calls(n));
      forall k: nat | k < n - 1 ensures HoldsPart(plan, now, k) {
        assert HoldsPart(plan, before, k);
        assert Lookup(before, PartFile(plan.id, k + 1)) == Lookup(now, PartFile(plan.id, k + 1));
      }
      assert HoldsPart(plan, now, n - 1);
    }
  }

  lemma NoCalls(disk: Disk)
    ensures Run(disk, []) == disk
  {
  }

  lemma {:induction false} JoinedPlan(plan: Plan, now: Disk, n: nat)
    requires plan.Valid() && n <= |plan.bodies| && forall k: nat :: k < n ==> HoldsPart(plan, now, k)
    ensures Joined(now, plan.id, n) == Flat(plan.bodies[..n])
  {
    if n > 0 {
      JoinedPlan(plan, now, n - 1);
      assert HoldsPart(plan, now, n - 1);
      assert plan.bodies[..n][..n - 1] == plan.bodies[..n - 1];
    }
  }

  /**
   * A whole upload that meets no failing file and passes the checks: the completion succeeds, the object
   * holds the bodies end to end with the attributes given at creation, and the upload is gone.
   */
  lemma WholeUpload(plan: Plan, disk: Disk, checks: Checks)
    requires plan.Valid() && plan.Passes(checks, disk)
    ensures var before := Run(disk, plan.Calls(|plan.bodies|));
            var (r, after) := Step(before, plan.Completion(checks), Env({}, {}));
            && r.Success?
            && Lookup(after, ObjectFile(plan.bucket, plan.key)) == Some(Data(Flat(plan.bodies)))
            && Lookup(after, Attributes(plan.bucket, plan.key, None)) == Some(Meta(plan.attrs))
            && Lookup(after, Internal(plan.bucket, plan.key)) == Some(Meta(checks.info(Flat(plan.bodies))))
            && Lookup(after, UploadInfo(plan.id)).None?
            && forall n: nat :: 1 <= n <= |plan.bodies| ==> Lookup(after, PartFile(plan.id, n)).None?
  {
    hide CompleteUpload, CompletionSoFar, Commits, Run, Flat, Joined;
    var n, calm := |plan.bodies|, Env({}, {});
    var before, call := Run(disk, plan.Calls(n)), plan.Completion(checks);
    CallsHold(plan, disk, n);
    JoinedPlan(plan, before, n);
    assert plan.bodies[..n] == plan.bodies;
    forall i: nat | 1 <= i <= n ensures Usable(before, call, i) {
      assert HoldsPart(plan, before, i - 1);
    }
    assert Lawful(before, call, calm);
    CompleteExact(before, call, calm);
    CompleteEffect(before, call, calm);
    LawfulCommits(before, call, calm);
    forall i: nat | 1 <= i <= n ensures PartFile(plan.id, i) in Residue(call, n) {
    }
  }
}
