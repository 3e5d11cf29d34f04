/** Files in a folder tree and blobs in a bucket, both as maps from a path to
    the bytes stored there. Upload (`copy_to_cloud`) and restore
    (`download_from_cloud`) both take the files below one folder and place them
    below another; the only difference is which side keeps what it had. */
module ObjectStore {
  import opened PosixPath

  type Bytes = seq<bv8>

  /** The paths of `store` strictly below `folder`, taken relative to it. */
  function RelPaths(store: map<string, Bytes>, folder: string): set<string> {
    set p | p in store && IsUnder(p, folder) :: RelPath(p, folder)
  }

  /** `os.walk(folder)` followed by `os.path.relpath(file, folder)` for every
      file found; on a bucket, `list_blobs(prefix=folder)` followed by the same
      `relpath`, for the blobs below `folder + "/"`. */
  function Walk(store: map<string, Bytes>, folder: string): (tree: map<string, Bytes>)
    ensures forall rel :: rel in tree <==> folder + "/" + rel in store
    ensures forall rel :: rel in tree ==> tree[rel] == store[folder + "/" + rel]
  {
    assert forall p :: p in store && IsUnder(p, folder) ==> p == folder + "/" + RelPath(p, folder);
    forall rel | folder + "/" + rel in store
      ensures rel in RelPaths(store, folder)
    {
      var p := folder + "/" + rel;
      assert p[..|folder|] == folder;
      assert RelPath(p, folder) == rel;
    }
    map rel | rel in RelPaths(store, folder) :: store[folder + "/" + rel]
  }

  /** Every file of `tree` at `os.path.join(folder, rel)`. */
  function Place(folder: string, tree: map<string, Bytes>): (placed: map<string, Bytes>)
    ensures forall rel :: rel in tree ==> Join(folder, rel) in placed && placed[Join(folder, rel)] == tree[rel]
    ensures forall k :: k in placed ==> exists rel :: rel in tree && k == Join(folder, rel)
  {
    forall x, y | x in tree && y in tree && Join(folder, x) == Join(folder, y)
      ensures x == y
    {
      JoinInjective(folder, x, y);
    }
    map rel | rel in tree :: Join(folder, rel) := tree[rel]
  }

  /** The bucket after uploading `tree` under `cloud`, one blob at a time, each
      only when `blob.exists()` is false. */
  function Upload(bucket: map<string, Bytes>, cloud: string, tree: map<string, Bytes>): map<string, Bytes> {
    Place(cloud, tree) + bucket
  }

  /** The files of `tree` whose blob did not exist yet: the ones uploaded. */
  function Fresh(bucket: map<string, Bytes>, cloud: string, tree: map<string, Bytes>): set<string> {
    set rel | rel in tree && Join(cloud, rel) !in bucket
  }

  // ---------------------------------------------------------------------------
  // Upload

  /** Upload never changes a blob that was already in the bucket, puts every
      file of the tree under its key, the files whose blob was missing with
      their own bytes, and adds no other key. */
  lemma UploadKeepsAndAdds(bucket: map<string, Bytes>, cloud: string, tree: map<string, Bytes>)
    ensures var b := Upload(bucket, cloud, tree);
      && (forall k :: k in bucket ==> k in b && b[k] == bucket[k])
      && (forall rel :: rel in tree ==> Join(cloud, rel) in b)
      && (forall rel :: rel in Fresh(bucket, cloud, tree) ==> b[Join(cloud, rel)] == tree[rel])
      && (forall k :: k in b ==> k in bucket || exists rel :: rel in Fresh(bucket, cloud, tree) && k == Join(cloud, rel))
  {
  }

  /** Uploading the same tree a second time changes nothing. */
  lemma UploadIdempotent(bucket: map<string, Bytes>, cloud: string, tree: map<string, Bytes>)
    ensures Upload(Upload(bucket, cloud, tree), cloud, tree) == Upload(bucket, cloud, tree)
    ensures Fresh(Upload(bucket, cloud, tree), cloud, tree) == {}
  {
    var b := Upload(bucket, cloud, tree);
    assert Upload(b, cloud, tree) == b;
  }

  // ---------------------------------------------------------------------------
  // Placing and walking are inverse

  /** Walking a folder that holds exactly a placed tree gives the tree back:
      restoring the blobs uploaded under `cloud` yields the uploaded files at
      the same relative paths. */
  lemma WalkPlace(folder: string, tree: map<string, Bytes>)
    requires folder != ""
    ensures Walk(Place(folder, tree), folder) == tree
  {
    var placed := Place(folder, tree);
    var w := Walk(placed, folder);
    forall rel | rel in tree ensures rel in w && w[rel] == tree[rel] {
      assert Join(folder, rel) == folder + "/" + rel;
    }
    forall rel | rel in w ensures rel in tree {
      var r :| r in tree && folder + "/" + rel == Join(folder, r);
      JoinInjective(folder, rel, r);
    }
  }

  /** Placing the walked files of a folder back under the same folder gives
      exactly the files below that folder. */
  lemma PlaceWalk(store: map<string, Bytes>, folder: string)
    requires folder != ""
    ensures var p := Place(folder, Walk(store, folder));
      forall k :: k in p <==> k in store && IsUnder(k, folder)
    ensures var p := Place(folder, Walk(store, folder));
      forall k :: k in p ==> p[k] == store[k]
  {
    var w := Walk(store, folder);
    var p := Place(folder, w);
    forall k | k in store && IsUnder(k, folder) ensures k in p {
      var rel := RelPath(k, folder);
      assert Join(folder, rel) == k;
    }
  }

  /** Restoring a folder's blobs into the folder the files were uploaded from
      brings back every uploaded file at its own path: with the bytes uploaded
      when its blob was fresh, and with the bytes of the blob that was already
      there otherwise. */
  lemma UploadRestoreRoundTrip(bucket: map<string, Bytes>, files: map<string, Bytes>, local: string, cloud: string, rel: string)
    requires local != "" && cloud != ""
    requires rel in Walk(files, local)
    ensures var restored := Place(local, Walk(Upload(bucket, cloud, Walk(files, local)), cloud));
      && Join(local, rel) in restored
      && restored[Join(local, rel)] == if rel in Fresh(bucket, cloud, Walk(files, local)) then files[Join(local, rel)] else bucket[Join(cloud, rel)]
  {
    var tree := Walk(files, local);
    var b := Upload(bucket, cloud, tree);
    assert Join(cloud, rel) == cloud + "/" + rel;
    assert Join(local, rel) == local + "/" + rel;
  }
}
