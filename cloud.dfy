/**
  In-memory stand-ins for the storage and warehouse services the pipeline drives:
  buckets of named objects, a local disk, a dataset of tables and a warehouse client
  that accepts job submissions.
*/
module Cloud {
  import opened Jobs

  /** No element occurs twice. */
  ghost predicate Distinct<T>(s: seq<T>) {
    forall i, j :: 0 <= i < j < |s| ==> s[i] != s[j]
  }

  /** `s` with every occurrence of `x` taken out, the rest in order. */
  function Without(s: seq<string>, x: string): (r: seq<string>)
    ensures x !in r
    ensures forall y :: y != x ==> (y in r <==> y in s)
    ensures |r| <= |s|
  {
    if s == [] then []
    else (if s[0] == x then [] else [s[0]]) + Without(s[1..], x)
  }

  /** Removing an element that occurs once, at a known place, leaves the other two parts. */
  lemma {:induction false} WithoutOnce(a: seq<string>, x: string, b: seq<string>)
    requires x !in a && x !in b
    ensures Without(a + [x] + b, x) == a + b
  {
    if a == [] {
      assert (a + [x] + b)[1..] == b;
      WithoutAbsent(b, x);
    } else {
      assert (a + [x] + b)[1..] == a[1..] + [x] + b;
      WithoutOnce(a[1..], x, b);
    }
  }

  /** Removing an element that does not occur changes nothing. */
  lemma {:induction false} WithoutAbsent(s: seq<string>, x: string)
    requires x !in s
    ensures Without(s, x) == s
  {
    if s != [] {
      WithoutAbsent(s[1..], x);
    }
  }

  // ---------------------------------------------------------------- storage

  /** A stored object: its name and its bytes. */
  datatype StoredObject = StoredObject(name: string, data: seq<bv8>)

  /** The names of some objects, in order. */
  function Names(objs: seq<StoredObject>): (r: seq<string>)
    ensures |r| == |objs|
    ensures forall k :: 0 <= k < |objs| ==> r[k] == objs[k].name
  {
    if objs == [] then [] else [objs[0].name] + Names(objs[1..])
  }

  /** `objs` without the objects called `name`. */
  function WithoutNamed(objs: seq<StoredObject>, name: string): (r: seq<StoredObject>)
    ensures forall o :: o in r <==> o in objs && o.name != name
  {
    if objs == [] then []
    else (if objs[0].name == name then [] else [objs[0]]) + WithoutNamed(objs[1..], name)
  }

  /**
    In a bucket whose names are distinct, deleting the first object of the suffix
    `objs[i..]` by name leaves the rest of that suffix.
  */
  lemma {:induction false} WithoutNamedHead(objs: seq<StoredObject>, i: nat)
    requires i < |objs| && Distinct(Names(objs))
    ensures WithoutNamed(objs[i..], objs[i].name) == objs[i + 1..]
  {
    var rest := objs[i + 1..];
    forall k | 0 <= k < |rest| ensures rest[k].name != objs[i].name {
      assert Names(objs)[i + 1 + k] == rest[k].name;
    }
    WithoutNamedNone(rest, objs[i].name);
    var suffix := objs[i..];
    assert suffix[0] == objs[i] && suffix[1..] == rest;
  }

  lemma {:induction false} WithoutNamedNone(objs: seq<StoredObject>, name: string)
    requires forall k :: 0 <= k < |objs| ==> objs[k].name != name
    ensures WithoutNamed(objs, name) == objs
  {
    if objs != [] {
      WithoutNamedNone(objs[1..], name);
    }
  }

  /** `gs://<bucket>/<object>`, the source URI of a load job. */
  function ObjectUri(bucket: string, obj: string): string {
    "gs://" + bucket + "/" + obj
  }

  /** `gs://<bucket>/<table>-*.json.gz`, the destination URI pattern of an extract job. */
  function ExportUri(bucket: string, table: string): string {
    "gs://" + bucket + "/" + table + "-*.json.gz"
  }

  /** A storage bucket; `objects` is what `list_blobs()` enumerates, in order. */
  class Bucket {
    const name: string
    var objects: seq<StoredObject>

    constructor (name: string, objects: seq<StoredObject>)
      ensures this.name == name && this.objects == objects
    {
      this.name := name;
      this.objects := objects;
    }

    /** `blob.delete()` for the object called `objName`. */
    method Delete(objName: string)
      modifies this
      ensures objects == WithoutNamed(old(objects), objName)
    {
      objects := WithoutNamed(objects, objName);
    }
  }

  /** The local file system: file contents by path; writes to `failing` paths raise. */
  class LocalDisk {
    var files: map<string, seq<bv8>>
    const failing: set<string>

    constructor (files: map<string, seq<bv8>>, failing: set<string>)
      ensures this.files == files && this.failing == failing
    {
      this.files := files;
      this.failing := failing;
    }

    /**
      `blob.download_to_filename(path)`: `ok` is false when the write raised. The file
      is opened for writing before any byte arrives, so a raising write may leave
      anything at `path` (here, an empty file); every other file is left alone.
    */
    method DownloadToFilename(obj: StoredObject, path: string) returns (ok: bool)
      modifies this
      ensures ok <==> path !in failing
      ensures ok ==> files == old(files)[path := obj.data]
      ensures !ok ==> files - {path} == old(files) - {path}
    {
      ok := path !in failing;
      if ok {
        files := files[path := obj.data];
      } else {
        files := files[path := []];
      }
    }
  }

  // -------------------------------------------------------------- warehouse

  /** `dataset.table(name)`: a table of a dataset, by name. */
  datatype TableRef = TableRef(dataset: string, table: string)

  /** What a submitted job was asked to do. */
  datatype JobRequest =
    | Load(destination: TableRef, sourceUri: string)
    | Extract(source: TableRef, destinationUri: string)

  /** A dataset: `tables` is what `list_tables()` enumerates, in order. */
  class Dataset {
    const name: string
    var tables: seq<string>
    var present: bool

    constructor (name: string, tables: seq<string>)
      ensures this.name == name && this.tables == tables && present
    {
      this.name := name;
      this.tables := tables;
      present := true;
    }

    /** `table.delete()`. */
    method DeleteTable(table: string)
      modifies this
      ensures tables == Without(old(tables), table) && present == old(present)
    {
      tables := Without(tables, table);
    }

    /** `dataset.delete()`. */
    method Delete()
      modifies this
      ensures !present && tables == old(tables)
    {
      present := false;
    }
  }

  /** The behaviour the service gives the `k`-th job submitted from now on. */
  function ScriptAt(scripts: seq<Timeline>, k: nat): Timeline {
    if k < |scripts| then scripts[k] else Stalled
  }

  /**
    The snapshots the `base`-th to `(base + n - 1)`-th jobs submitted settle on once
    they are polled, in submission order.
  */
  function Outcomes(scripts: seq<Timeline>, base: nat, n: nat): (r: seq<Snapshot>)
    ensures |r| == n
  {
    seq(n, k requires 0 <= k < n => Settled(ScriptAt(scripts, base + k)))
  }

  /**
    The warehouse client. `submitted` records every job handed to the service, in
    order; `scripts[j]` is how the service runs the `j`-th job submitted.
  */
  class Client {
    var submitted: seq<JobRequest>
    const scripts: seq<Timeline>

    constructor (scripts: seq<Timeline>)
      ensures submitted == [] && this.scripts == scripts
    {
      submitted := [];
      this.scripts := scripts;
    }

    /** `client.load_table_from_storage(...)` or `extract_table_to_storage(...)`, then `job.begin()`. */
    method Submit(request: JobRequest) returns (job: Job)
      modifies this
      ensures fresh(job)
      ensures job.View() == ScriptAt(scripts, |old(submitted)|) && job.reloads == 0
      ensures submitted == old(submitted) + [request]
    {
      job := new Job(ScriptAt(scripts, |submitted|));
      submitted := submitted + [request];
    }
  }
}
