/** The runtime directory as a store of btrfs subvolumes, each named by its
    path under the runtime directory. A subvolume carries its read-only
    flag, the extended attributes of its root directory and its files.
    The `btrfs subvolume` commands and the xattr calls become operations
    on that store. */
module Volumes {
  /** The contents of a subvolume: file path to file contents. */
  type Files = map<string, string>

  datatype Volume = Volume(readonly: bool, attrs: map<string, string>, files: Files)

  type Store = map<string, Volume>

  /** Every name other than `touched` is present, and holds the same
      volume, in `before` exactly when it is in `after`. */
  ghost predicate SameElsewhere(before: Store, after: Store, touched: set<string>) {
    forall n :: n !in touched ==>
      (n in before <==> n in after) && (n in before ==> before[n] == after[n])
  }

  /** `btrfs subvolume create`: a new, writable, empty subvolume. */
  function Created(vols: Store, name: string): (r: Store)
    requires name !in vols
    ensures name in r && r[name] == Volume(false, map[], map[])
    ensures SameElsewhere(vols, r, {name})
  {
    vols[name := Volume(false, map[], map[])]
  }

  /** `btrfs subvolume snapshot [-r] src dest`: `dest` gets the files and
      root attributes of `src`, read-only exactly when `-r` is given. */
  function Snapshotted(vols: Store, src: string, dest: string, ro: bool): (r: Store)
    requires src in vols && dest !in vols
    ensures dest in r && r[dest].readonly == ro
    ensures r[dest].attrs == vols[src].attrs && r[dest].files == vols[src].files
    ensures src in r && r[src] == vols[src]
    ensures SameElsewhere(vols, r, {dest})
  {
    vols[dest := vols[src].(readonly := ro)]
  }

  /** `btrfs subvolume delete`. */
  function Deleted(vols: Store, name: string): (r: Store)
    requires name in vols
    ensures name !in r
    ensures SameElsewhere(vols, r, {name})
  {
    vols - {name}
  }

  /** `os.setxattr` on the root of a writable subvolume. */
  function WithAttr(vols: Store, name: string, key: string, value: string): (r: Store)
    requires name in vols && !vols[name].readonly
    ensures name in r && r[name].attrs == vols[name].attrs[key := value]
    ensures r[name].readonly == vols[name].readonly && r[name].files == vols[name].files
    ensures SameElsewhere(vols, r, {name})
  {
    vols[name := vols[name].(attrs := vols[name].attrs[key := value])]
  }

  /** `os.removexattr` of an attribute that is present, on the root of a
      writable subvolume. */
  function WithoutAttr(vols: Store, name: string, key: string): (r: Store)
    requires name in vols && !vols[name].readonly && key in vols[name].attrs
    ensures name in r && key !in r[name].attrs
    ensures forall k :: k != key ==>
      (k in r[name].attrs <==> k in vols[name].attrs) &&
      (k in vols[name].attrs ==> r[name].attrs[k] == vols[name].attrs[k])
    ensures r[name].readonly == vols[name].readonly && r[name].files == vols[name].files
    ensures SameElsewhere(vols, r, {name})
  {
    vols[name := vols[name].(attrs := vols[name].attrs - {key})]
  }

  /** A subvolume whose files a command has rewritten. */
  function WithFiles(vols: Store, name: string, files: Files): (r: Store)
    requires name in vols
    ensures name in r && r[name].files == files
    ensures r[name].readonly == vols[name].readonly && r[name].attrs == vols[name].attrs
    ensures SameElsewhere(vols, r, {name})
  {
    vols[name := vols[name].(files := files)]
  }

  /** The two ways a build command runs: through the host shell with the
      working subvolume as its directory, or inside it with
      `systemd-nspawn`. */
  datatype Backend = HostShell | Container

  /** How a command ends: the files of the subvolume it ran in, as it left
      them, and whether it exited with status zero. A command that fails
      keeps whatever it wrote before it exited. */
  datatype Completion = Completion(files: Files, success: bool)

  /** What running a command does to the files of the subvolume it runs
      in, given the backend, the command line and the environment. */
  type Exec = (Backend, string, map<string, string>, Files) -> Completion

  /** The runtime directory. Each method is one system call or one
      `btrfs` command: `ok` is false exactly where that call fails, and a
      failed call changes nothing. */
  class VolumeStore {
    var volumes: Store

    constructor (initial: Store)
      ensures volumes == initial
    {
      volumes := initial;
    }

    /** `Path.exists()` on the subvolume's path. */
    method Exists(name: string) returns (b: bool)
      ensures b <==> name in volumes
    {
      b := name in volumes;
    }

    method Create(name: string) returns (ok: bool)
      modifies this
      ensures ok <==> name !in old(volumes)
      ensures volumes == if ok then Created(old(volumes), name) else old(volumes)
    {
      ok := name !in volumes;
      if ok {
        volumes := volumes[name := Volume(false, map[], map[])];
      }
    }

    method Snapshot(src: string, dest: string, ro: bool) returns (ok: bool)
      modifies this
      ensures ok <==> src in old(volumes) && dest !in old(volumes)
      ensures volumes == if ok then Snapshotted(old(volumes), src, dest, ro) else old(volumes)
    {
      ok := src in volumes && dest !in volumes;
      if ok {
        volumes := volumes[dest := volumes[src].(readonly := ro)];
      }
    }

    method Delete(name: string) returns (ok: bool)
      modifies this
      ensures ok <==> name in old(volumes)
      ensures volumes == if ok then Deleted(old(volumes), name) else old(volumes)
    {
      ok := name in volumes;
      if ok {
        volumes := volumes - {name};
      }
    }

    /** `os.setxattr`: fails on a missing or read-only subvolume. */
    method SetAttr(name: string, key: string, value: string) returns (ok: bool)
      modifies this
      ensures ok <==> name in old(volumes) && !old(volumes)[name].readonly
      ensures volumes == if ok then WithAttr(old(volumes), name, key, value) else old(volumes)
    {
      ok := name in volumes && !volumes[name].readonly;
      if ok {
        var v := volumes[name];
        volumes := volumes[name := v.(attrs := v.attrs[key := value])];
      }
    }

    /** `os.removexattr`: fails also when the attribute is not there. */
    method RemoveAttr(name: string, key: string) returns (ok: bool)
      modifies this
      ensures ok <==> name in old(volumes) && !old(volumes)[name].readonly && key in old(volumes)[name].attrs
      ensures volumes == if ok then WithoutAttr(old(volumes), name, key) else old(volumes)
    {
      ok := name in volumes && !volumes[name].readonly && key in volumes[name].attrs;
      if ok {
        var v := volumes[name];
        volumes := volumes[name := v.(attrs := v.attrs - {key})];
      }
    }

    /** Runs a command in subvolume `name` (`subprocess.run(..., check=True)`):
        fails when the subvolume is missing or the command exits with a
        failure status; in the second case the subvolume still holds what
        the command wrote. */
    method Execute(name: string, backend: Backend, cmdline: string, env: map<string, string>, exec: Exec)
      returns (ok: bool)
      modifies this
      ensures ok <==> name in old(volumes) && exec(backend, cmdline, env, old(volumes)[name].files).success
      ensures volumes == if name in old(volumes)
        then WithFiles(old(volumes), name, exec(backend, cmdline, env, old(volumes)[name].files).files)
        else old(volumes)
    {
      ok := false;
      if name in volumes {
        var result := exec(backend, cmdline, env, volumes[name].files);
        volumes := volumes[name := volumes[name].(files := result.files)];
        ok := result.success;
      }
    }
  }
}
