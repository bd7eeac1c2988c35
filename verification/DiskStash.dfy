/**
 The local-disk stash: one `.tmp` file per upload, created, removed and named by URL. What
 concurrent users of the directory do to these files is the subject of StashLifecycle.
 */
module DiskStash {
  import opened Text
  import opened StashPaths
  import opened PieceStore

  /** How writeFunc ends; what it wrote by then stays in the file. */
  datatype Writing = Wrote(size: nat) | WriteFailed(size: nat) | Panicked(size: nat)

  class Store {
    const env: Env
    var files: map<string, File>

    constructor (env: Env, files: map<string, File>)
      ensures this.env == env && this.files == files
    {
      this.env, this.files := env, files;
    }

    /**
     StashCreate for the UUID just drawn. A write that fails leaves nothing behind, unless the file
     cannot be removed; a panic leaves the file to the sweep.
     */
    method StashCreate(id: string, now: int, openOk: bool, writing: Writing, removeOk: bool)
      returns (stashed: Option<string>)
      requires IsUuid(id)
      modifies this`files
      ensures stashed == if openOk && writing.Wrote? then Some(id) else None
      ensures files ==
                if !openOk then old(files)
                else if writing.WriteFailed? && removeOk then old(files) - {StashPath(env.dir, id)}
                else old(files)[StashPath(env.dir, id) := File(now, writing.size, false)]
      ensures StashPath(env.dir, id) !in old(files) && stashed == None && removeOk && !(openOk && writing.Panicked?) ==>
              files == old(files)
    {
      var path := StashPath(env.dir, id);
      if !openOk {
        return None;
      }
      files := files[path := File(now, 0, false)];
      files := files[path := File(now, writing.size, false)];
      match writing
      case Wrote(_) => stashed := Some(id);
      case WriteFailed(_) =>
        if removeOk {
          files := files - {path};
        }
        stashed := None;
      case Panicked(_) => stashed := None;
    }

    /** StashRemove, and the removal when a served stash is closed: a file already gone is not an error. */
    method StashRemove(id: string, removeOk: bool) returns (ok: bool)
      requires IsUuid(id)
      modifies this`files
      ensures ok == (removeOk || StashPath(env.dir, id) !in old(files))
      ensures ok ==> files == old(files) - {StashPath(env.dir, id)}
      ensures !ok ==> files == old(files)
    {
      var path := StashPath(env.dir, id);
      if path !in files {
        assert files - {path} == files;
        return true;
      }
      if removeOk {
        files := files - {path};
      }
      ok := removeOk;
    }

    /**
     StashURL as it is stored, scheme rewritten to custore: it leads back to the stash file exactly
     when the directory is absolute.
     */
    method StashUrl(id: string) returns (url: string)
      requires IsUuid(id) && IsBytes(env.dir) && Rooted(env.cwd)
      ensures Resolve(url, env) == Some(StashPath(env.dir, id)) <==> Rooted(env.dir)
    {
      url := CustoreUrl(env.dir, id);
      RoundTripsIffAbsolute(id, env);
    }
  }
}
