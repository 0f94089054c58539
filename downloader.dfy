/**
  The downloader: every object of the bucket is written to a local file named after
  it, then deleted from the bucket; a download that raises ends the stage, leaving
  that object and the ones after it in the bucket.
*/
module Downloader {
  import opened Wrappers
  import opened Cloud

  /**
    The index of the first object of `objs[i..]` whose download raises, or `|objs|`
    when none does: how far the downloader gets from `i` on.
  */
  function FirstFailing(objs: seq<StoredObject>, failing: set<string>, i: nat): (r: nat)
    requires i <= |objs|
    ensures i <= r <= |objs|
    ensures forall k :: i <= k < r ==> objs[k].name !in failing
    ensures r < |objs| ==> objs[r].name in failing
    decreases |objs| - i
  {
    if i == |objs| then i
    else if objs[i].name in failing then i
    else FirstFailing(objs, failing, i + 1)
  }

  /** The local files after the objects `objs[..n]` are written, in order, over `files`. */
  function Written(files: map<string, seq<bv8>>, objs: seq<StoredObject>, n: nat): (r: map<string, seq<bv8>>)
    requires n <= |objs|
  {
    if n == 0 then files
    else Written(files, objs, n - 1)[objs[n - 1].name := objs[n - 1].data]
  }

  /**
    With distinct names, each of the first `n` objects is on disk with its own bytes,
    and every other path keeps what it held.
  */
  lemma {:induction false} WrittenExact(files: map<string, seq<bv8>>, objs: seq<StoredObject>, n: nat)
    requires n <= |objs| && Distinct(Names(objs))
    ensures forall k :: 0 <= k < n ==>
              objs[k].name in Written(files, objs, n) && Written(files, objs, n)[objs[k].name] == objs[k].data
    ensures forall p :: (forall k :: 0 <= k < n ==> objs[k].name != p) ==>
              (p in Written(files, objs, n) <==> p in files) &&
              (p in files ==> Written(files, objs, n)[p] == files[p])
  {
    if n > 0 {
      WrittenExact(files, objs, n - 1);
      forall k | 0 <= k < n - 1 ensures objs[k].name != objs[n - 1].name {
        assert Names(objs)[k] != Names(objs)[n - 1];
      }
    }
  }

  /**
    `download_backup_from_storage`: for every object of `bucket`, in order, write it
    to the local file named after it and then delete it; a failed download ends the
    stage with that object's name, and what it left at that object's path is unknown.
  */
  method DownloadFromStorage(bucket: Bucket, disk: LocalDisk) returns (outcome: Outcome<string>)
    requires Distinct(Names(bucket.objects))
    modifies bucket, disk
    ensures bucket.objects == old(bucket.objects)[FirstFailing(old(bucket.objects), disk.failing, 0)..]
    ensures outcome.Pass? ==>
              disk.files == Written(old(disk.files), old(bucket.objects), FirstFailing(old(bucket.objects), disk.failing, 0))
    ensures outcome.Fail? ==>
              disk.files - {outcome.error} ==
                Written(old(disk.files), old(bucket.objects), FirstFailing(old(bucket.objects), disk.failing, 0)) - {outcome.error}
    ensures outcome ==
              if FirstFailing(old(bucket.objects), disk.failing, 0) < |old(bucket.objects)|
              then Fail(old(bucket.objects)[FirstFailing(old(bucket.objects), disk.failing, 0)].name)
              else Pass
  {
    var objs := bucket.objects;
    ghost var files0 := disk.files;
    var i := 0;
    while i < |objs|
      invariant 0 <= i <= |objs|
      invariant bucket.objects == objs[i..]
      invariant disk.files == Written(files0, objs, i)
      invariant FirstFailing(objs, disk.failing, i) == FirstFailing(objs, disk.failing, 0)
    {
      var obj := objs[i];
      var ok := disk.DownloadToFilename(obj, obj.name);
      if !ok {
        return Fail(obj.name);
      }
      WithoutNamedHead(objs, i);
      bucket.Delete(obj.name);
      i := i + 1;
    }
    outcome := Pass;
  }

  /**
    Nothing is lost: after the stage, every object of the bucket is either still in
    the bucket or in the local file named after it, with its bytes.
  */
  lemma NothingLost(objs: seq<StoredObject>, files: map<string, seq<bv8>>, failing: set<string>, k: nat)
    requires Distinct(Names(objs)) && k < |objs|
    ensures var done := FirstFailing(objs, failing, 0);
            objs[k] in objs[done..] ||
            (objs[k].name in Written(files, objs, done) && Written(files, objs, done)[objs[k].name] == objs[k].data)
  {
    var done := FirstFailing(objs, failing, 0);
    if k < done {
      WrittenExact(files, objs, done);
    } else {
      assert objs[k] == objs[done..][k - done];
    }
  }

  /**
    An object is deleted from the bucket iff its download succeeded: exactly the
    objects before the first failing one are gone.
  */
  lemma DeletedIffDownloaded(objs: seq<StoredObject>, failing: set<string>, k: nat)
    requires Distinct(Names(objs)) && k < |objs|
    ensures objs[k] !in objs[FirstFailing(objs, failing, 0)..] <==> k < FirstFailing(objs, failing, 0)
  {
    var done := FirstFailing(objs, failing, 0);
    if k < done {
      forall j | done <= j < |objs| ensures objs[j] != objs[k] {
        assert Names(objs)[j] != Names(objs)[k];
      }
    } else {
      assert objs[k] == objs[done..][k - done];
    }
  }

  /**
    When no download from `i` on raises, the loop runs to the end, so the bucket is
    emptied and the stage passes; this follows from the contract of `FirstFailing`.
  */
  lemma AllDownloaded(objs: seq<StoredObject>, failing: set<string>, i: nat)
    requires i <= |objs|
    requires forall k :: i <= k < |objs| ==> objs[k].name !in failing
    ensures FirstFailing(objs, failing, i) == |objs|
  {
  }
}
