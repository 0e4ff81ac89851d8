/** Immutable evidence files (backend/investigation/evidence.py), and the group of files one
    transaction writes. */
module EvidenceStore {
  import opened Common

  type Digest = nat
  type Files = map<Id, Bytes>

  datatype Evidence = Evidence(key: Id, sha256: Digest, size: nat)

  class FileEvidenceStorage {
    var files: Files
    const sha256: Bytes -> Digest

    constructor (sha256: Bytes -> Digest)
      ensures files == map[] && this.sha256 == sha256
    {
      this.sha256 := sha256;
      files := map[];
    }

    /** O_EXCL refuses a drawn key that already names a file, and leaves that file alone. */
    method Put(key: Id, content: Bytes) returns (r: Option<Evidence>)
      modifies this
      ensures key in old(files) ==> r == None && files == old(files)
      ensures key !in old(files) ==>
        && r == Some(Evidence(key, sha256(content), |content|))
        && files == old(files)[key := content]
    {
      if key in files {
        return None;
      }
      files := files[key := content];
      r := Some(Evidence(key, sha256(content), |content|));
    }

    /** Reading with the recorded digest returns the bytes only while they still match it. */
    method Read(key: Id, expected: Option<Digest>) returns (r: Option<Bytes>)
      ensures r.Some? <==>
        key in files && (expected.Some? ==> sha256(files[key]) == expected.value)
      ensures r.Some? ==> r.value == files[key]
    {
      if key !in files {
        return None;
      }
      var content := files[key];
      if expected.Some? && sha256(content) != expected.value {
        return None;
      }
      r := Some(content);
    }

    method Delete(key: Id)
      modifies this
      ensures files == old(files) - {key}
    {
      files := files - {key};
    }

    /** Deletes the first `count` of the listed keys, in the order they were written. */
    method DeleteFirst(keys: seq<Id>, count: nat)
      requires count <= |keys|
      modifies this
      ensures files == old(files) - KeySet(keys[..count])
    {
      for i := 0 to count
        invariant files == old(files) - KeySet(keys[..i])
      {
        Delete(keys[i]);
        assert keys[..i + 1] == keys[..i] + [keys[i]];
      }
    }
  }

  function KeySet(keys: seq<Id>): set<Id> {
    set k | k in keys
  }

  /** The first n contents can be stored: each decodes, and each key is free when it is used. */
  predicate Writable(files: Files, contents: seq<Option<Bytes>>, keys: seq<Id>, n: nat)
    requires n <= |contents| && |contents| <= |keys|
  {
    forall i | 0 <= i < n :: contents[i].Some? && keys[i] !in files && keys[i] !in keys[..i]
  }

  /** The store after the first n contents have been written. */
  function Written(files: Files, contents: seq<Option<Bytes>>, keys: seq<Id>, n: nat): Files
    requires n <= |contents| && |contents| <= |keys| && Writable(files, contents, keys, n)
  {
    if n == 0 then files
    else Written(files, contents, keys, n - 1)[keys[n - 1] := contents[n - 1].value]
  }

  /** Every written key holds its own content, everything older is untouched, and nothing else
      appears. */
  lemma {:induction false} WrittenExactly(files: Files, contents: seq<Option<Bytes>>, keys: seq<Id>, n: nat)
    requires n <= |contents| && |contents| <= |keys| && Writable(files, contents, keys, n)
    ensures var after := Written(files, contents, keys, n);
      && after.Keys == files.Keys + KeySet(keys[..n])
      && (forall k | k in files :: after[k] == files[k])
      && (forall i | 0 <= i < n :: keys[i] in after && after[keys[i]] == contents[i].value)
  {
    if n > 0 {
      WrittenExactly(files, contents, keys, n - 1);
      assert keys[..n] == keys[..n - 1] + [keys[n - 1]];
      forall i | 0 <= i < n - 1 ensures keys[i] != keys[n - 1] {
        assert keys[..n - 1][i] == keys[i];
      }
    }
  }

  /** Deleting every key a failed transaction wrote gives back exactly the files before it. */
  lemma RollbackRestoresFiles(files: Files, contents: seq<Option<Bytes>>, keys: seq<Id>, n: nat)
    requires n <= |contents| && |contents| <= |keys| && Writable(files, contents, keys, n)
    ensures Written(files, contents, keys, n) - KeySet(keys[..n]) == files
  {
    WrittenExactly(files, contents, keys, n);
    forall k | k in KeySet(keys[..n]) ensures k !in files {
      var i :| 0 <= i < n && keys[i] == k;
    }
  }

  /** A process that dies during the transaction, or during its rollback, leaves every older file
      as it was and possibly some of the new ones. */
  lemma CrashOnlyAddsFiles(files: Files, contents: seq<Option<Bytes>>, keys: seq<Id>, n: nat, deleted: nat)
    requires deleted <= n <= |contents| && |contents| <= |keys| && Writable(files, contents, keys, n)
    ensures var after := Written(files, contents, keys, n) - KeySet(keys[..deleted]);
      && files.Keys <= after.Keys <= files.Keys + KeySet(keys[..n])
      && (forall k | k in files :: after[k] == files[k])
  {
    WrittenExactly(files, contents, keys, n);
    forall k | k in KeySet(keys[..deleted]) ensures k !in files {
      var i :| 0 <= i < deleted && keys[i] == k;
    }
  }
}
