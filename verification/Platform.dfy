/** The directory of one log file, with the calls the rotation code makes on it. Every
  * call may fail; constants of the directory say which kinds of call never do. */
module Platform {

  /** `data` is what the file unpacks to after `zips` layers of gzip. */
  datatype File = File(data: string, zips: nat)

  predicate NoDuplicates<T(==)>(s: seq<T>) {
    forall i, j :: 0 <= i < j < |s| ==> s[i] != s[j]
  }

  class Directory {
    /** A listing always shows every name. */
    const readable: bool
    /** There is always memory. */
    const roomy: bool
    /** Deleting and compressing an existing file never fail. */
    const reliable: bool
    /** Renaming an existing file never fails. */
    const renames: bool
    /** Opening never fails. */
    const opens: bool
    /** A write always takes all bytes. */
    const accepts: bool
    var files: map<string, File>
    var mtimes: map<string, int>

    /** What index scan and cleanup need to do their work. */
    predicate Works() {
      readable && roomy && reliable
    }

    constructor (readable: bool, roomy: bool, reliable: bool, renames: bool, opens: bool, accepts: bool)
      ensures files == map[] && this.readable == readable && this.roomy == roomy && this.reliable == reliable
      ensures this.renames == renames && this.opens == opens && this.accepts == accepts
    {
      this.readable, this.roomy, this.reliable := readable, roomy, reliable;
      this.renames, this.opens, this.accepts := renames, opens, accepts;
      files, mtimes := map[], map[];
    }

    /** `hx_clog__malloc` of a working set. */
    method HaveMemory() returns (ok: bool)
      ensures roomy ==> ok
    {
      ok := *;
      ok := ok || roomy;
    }

    /** `list_dir`: names in any order. Nothing tells the caller when the directory could
      * not be read, or not to its end. */
    method List() returns (names: seq<string>)
      ensures NoDuplicates(names)
      ensures forall n :: n in names ==> n in files
      ensures readable ==> forall n :: n in files ==> n in names
    {
      names := [];
      var rest := files.Keys;
      while rest != {}
        invariant NoDuplicates(names) && rest <= files.Keys
        invariant forall n :: n in names ==> n in files && n !in rest
        invariant forall n :: n in files ==> n in names || n in rest
        decreases |rest|
      {
        var more: bool := *;
        if !more && !readable {
          return;
        }
        var n :| n in rest;
        names := names + [n];
        rest := rest - {n};
      }
    }

    /** `st_mtime`, 0 when it cannot be read. */
    function Mtime(name: string): int
      reads this
    {
      if name in mtimes then mtimes[name] else 0
    }

    /** `hx_remove`. */
    method Remove(name: string) returns (ok: bool)
      modifies this
      ensures ok ==> name in old(files)
      ensures reliable && name in old(files) ==> ok
      ensures files == if ok then old(files) - {name} else old(files)
    {
      mtimes := *;
      ok := *;
      ok := name in files && (ok || reliable);
      if ok {
        files := files - {name};
      }
    }

    /** `hx_rename` onto another name. */
    method Rename(src: string, dst: string) returns (ok: bool)
      requires src != dst
      modifies this
      ensures ok ==> src in old(files)
      ensures renames && src in old(files) ==> ok
      ensures files == if ok then old(files)[dst := old(files)[src]] - {src} else old(files)
    {
      mtimes := *;
      ok := *;
      ok := src in files && (ok || renames);
      if ok {
        files := files[dst := files[src]] - {src};
      }
    }

    /** `gzip_file`: compress `src` into `dst` block by block, then remove `src`. On an
      * error the part that was written is removed, as far as that succeeds. */
    method Gzip(src: string, dst: string) returns (ok: bool)
      requires src != dst
      modifies this
      ensures ok ==> src in old(files)
                     && files == old(files)[dst := File(old(files)[src].data, old(files)[src].zips + 1)] - {src}
      ensures reliable && src in old(files) ==> ok
      ensures forall n :: n != src && n != dst ==>
                            (n in files <==> n in old(files)) && (n in files ==> files[n] == old(files)[n])
    {
      var opens: bool := *;
      if src !in files || !(opens || reliable) {
        return false;
      }
      var source := files[src];
      var cleared := Remove(dst);
      var creates: bool := *;
      if !(creates || reliable) {
        return false;
      }
      var done := 0;
      var good := true;
      while good && done < |source.data|
        invariant 0 <= done <= |source.data| && (reliable ==> good)
        decreases |source.data| - done, good
      {
        var block := if |source.data| - done < 16384 then |source.data| - done else 16384;
        var writes: bool := *;
        good := writes || reliable;
        if good {
          done := done + block;
        }
      }
      files := files[dst := File(source.data[..done], source.zips + 1)];
      if !good {
        var dropped := Remove(dst);
        return false;
      }
      assert source.data[..done] == source.data;
      ok := Remove(src);
      if ok {
        assert files == old(files)[dst := File(source.data, source.zips + 1)] - {src};
      }
    }

    /** `hx_fopen(name, "ab")`. */
    method OpenAppend(name: string) returns (ok: bool)
      modifies this
      ensures opens ==> ok
      ensures files == if ok && name !in old(files) then old(files)[name := File("", 0)] else old(files)
    {
      mtimes := *;
      ok := *;
      ok := ok || opens;
      if ok && name !in files {
        files := files[name := File("", 0)];
      }
    }

    /** `fwrite`: a prefix of `bytes` gets into the file. */
    method Append(name: string, bytes: string) returns (written: nat)
      requires name in files
      modifies this
      ensures written <= |bytes| && (accepts ==> written == |bytes|)
      ensures files == old(files)[name := old(files)[name].(data := old(files)[name].data + bytes[..written])]
    {
      mtimes := *;
      written :| written <= |bytes| && (accepts ==> written == |bytes|);
      files := files[name := files[name].(data := files[name].data + bytes[..written])];
    }
  }
}
