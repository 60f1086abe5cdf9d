/** The paste store (`write_paste`, `read_paste`, `ensure_storage_dir` in
    `src/main.rs`): a flat directory holding one file per paste, the file's
    name being the paste's identifier and its content the paste's bytes. */
module Store {
  import opened Wrappers
  import opened Search

  newtype byte = x: int | 0 <= x < 0x100

  type Bytes = seq<byte>

  /** A paste identifier, which is also the file name under the storage
      directory. */
  type Name = string

  /** The failures of the file operations. The directory of this model
      raises only `NoSuchFile` (the file or the directory itself is missing; `io::ErrorKind::NotFound`);
      the other kinds belong to failure modes it does not model, but they
      are part of the error type that callers must map. */
  datatype IoError = NoSuchFile | PermissionDenied | OtherIo

  /** `write_paste`'s retry loop takes the candidates `phrase()` returns in
      turn; this is the predicate it waits for. */
  predicate IsFree(taken: set<Name>, name: Name) {
    name !in taken
  }

  /** How many candidates are drawn and rejected before a free one is found:
      the final value of `phrase_retries`. */
  function Retries(taken: set<Name>, candidates: seq<Name>): (k: nat)
    ensures k <= |candidates|
    ensures forall j :: 0 <= j < k ==> candidates[j] in taken
    ensures k < |candidates| ==> candidates[k] !in taken
  {
    FirstIndex(candidates, n => IsFree(taken, n))
  }

  /** The storage directory: whether it exists, and its files. */
  class StorageDir {
    var present: bool
    var files: map<Name, Bytes>

    /** A directory that does not exist holds no files. */
    ghost predicate Valid()
      reads this
    {
      !present ==> files == map[]
    }

    /** `write_paste`: draw candidates until one names no existing file,
        create that file, write `content` into it and return the name.
        The k-th call of `phrase()` yields `candidates[k]`. The source loops
        for as long as it takes, so the caller must supply a free candidate. */
    method WritePaste(content: Bytes, candidates: seq<Name>) returns (r: Result<Name, IoError>, retries: nat)
      requires Valid()
      requires exists i :: 0 <= i < |candidates| && candidates[i] !in files
      modifies this
      ensures Valid() && present == old(present)
      // the loop stops at the first free candidate; every earlier one was taken
      ensures retries < |candidates| && retries == Retries(old(files).Keys, candidates)
      ensures candidates[retries] !in old(files)
      ensures forall j :: 0 <= j < retries ==> candidates[j] in old(files)
      // creating a file fails only when the directory is missing
      ensures r.Success? <==> old(present)
      ensures r.Failure? ==> r.error == NoSuchFile && files == old(files) && unchanged(this)
      // the returned name was fresh and now holds exactly `content`
      ensures r.Success? ==> r.value == candidates[retries] && r.value !in old(files)
      ensures r.Success? ==> files == old(files)[r.value := content]
      ensures r.Success? ==> files.Keys == old(files).Keys + {r.value}
      ensures forall n :: n in old(files) ==> n in files && files[n] == old(files)[n]
    {
      ghost var k := Retries(files.Keys, candidates);
      var fname := candidates[0];
      retries := 0;
      // `full_path.exists()`: under Valid(), a file exists exactly when its name is a key
      while fname in files
        invariant retries <= k && fname == candidates[retries]
        invariant forall j :: 0 <= j < retries ==> candidates[j] in files
        decreases k - retries
      {
        retries := retries + 1;
        fname := candidates[retries];
      }
      if !present {
        return Failure(NoSuchFile), retries;
      }
      // `File::create` makes an empty file, `write_all` fills it
      files := files[fname := []];
      files := files[fname := content];
      r := Success(fname);
    }

    /** `read_paste`: the whole content of the named file, or an error when
        there is no such file. */
    method ReadPaste(name: Name) returns (r: Result<Bytes, IoError>)
      requires Valid()
      ensures r.Success? <==> name in files
      ensures r.Success? ==> r.value == files[name]
      ensures r.Failure? ==> r.error == NoSuchFile
    {
      if !present || name !in files {
        return Failure(NoSuchFile);
      }
      // `read_to_end` appends the file's bytes to an empty `Vec`
      var ret: Bytes := [];
      ret := ret + files[name];
      r := Success(ret);
    }

    /** `ensure_storage_dir`: create the directory only when it is missing. */
    method EnsureStorageDir()
      requires Valid()
      modifies this
      ensures Valid() && present
      ensures files == old(files)
      ensures old(present) ==> unchanged(this)
    {
      if !present {
        present := true;
      }
    }
  }

  /** A read right after a successful write returns exactly what was
      written, under the name the write returned. */
  method WriteThenRead(dir: StorageDir, content: Bytes, candidates: seq<Name>)
    returns (name: Name, read: Result<Bytes, IoError>)
    requires dir.Valid() && dir.present
    requires exists i :: 0 <= i < |candidates| && candidates[i] !in dir.files
    modifies dir
    ensures name !in old(dir.files)
    ensures read == Success(content)
  {
    var written, _ := dir.WritePaste(content, candidates);
    name := written.value;
    read := dir.ReadPaste(name);
  }

  /** Two successive writes get two different names, and each name reads
      back its own content: the second write cannot overwrite the first. */
  method TwoWrites(dir: StorageDir, first: Bytes, second: Bytes, candidates1: seq<Name>, candidates2: seq<Name>)
    returns (name1: Name, name2: Name, read1: Result<Bytes, IoError>, read2: Result<Bytes, IoError>)
    requires dir.Valid() && dir.present
    requires exists i :: 0 <= i < |candidates1| && candidates1[i] !in dir.files
    requires exists i :: 0 <= i < |candidates2| && candidates2[i] !in dir.files &&
                         candidates2[i] != candidates1[Retries(dir.files.Keys, candidates1)]
    modifies dir
    ensures name1 != name2
    ensures read1 == Success(first) && read2 == Success(second)
  {
    var w1, _ := dir.WritePaste(first, candidates1);
    name1 := w1.value;
    var w2, _ := dir.WritePaste(second, candidates2);
    name2 := w2.value;
    read1 := dir.ReadPaste(name1);
    read2 := dir.ReadPaste(name2);
  }
}
