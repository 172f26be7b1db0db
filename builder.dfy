/** The `build` command: every HOST or RUN step of the Dockerfile becomes a
    read-only subvolume named by the digest of the step's arguments. A
    step whose subvolume already exists is reused. Otherwise the step runs
    in a working subvolume `<digest>-init`, which starts as a snapshot of
    the previous step's subvolume (or empty for the first step). The
    working subvolume is then labelled, sealed read-only under the digest
    and deleted. */
module Builder {
  import opened Optional
  import opened PyStr
  import opened Dockerfile
  import opened Volumes

  /** The attribute recording which subvolume a step was built on. */
  const ParentAttr: string := "user.parrent_hash"

  /** The attributes recording a step's directive and arguments. */
  const CmdAttrs: seq<string> := ["user.cmd.host", "user.cmd.run"]

  function CmdAttr(cmd: string): (r: string)
    ensures r != ParentAttr
    ensures cmd == "host" ==> r == CmdAttrs[0]
    ensures cmd == "run" ==> r == CmdAttrs[1]
  {
    assert ("user.cmd." + cmd)[5] == 'c';
    "user.cmd." + cmd
  }

  /** The working subvolume of the step whose digest is `h`. */
  function WorkingName(h: string): (r: string)
    ensures |r| == |h| + 5 && r[..|h|] == h && r[|h|] == '-'
  {
    h + "-init"
  }

  /** The path of subvolume `name` under the runtime directory. */
  function VolumePath(runtime: string, name: string): string {
    runtime + "/" + name
  }

  /** The environment of a HOST step: `TARGET` is the working subvolume's
      path unless the Dockerfile's ENV lines set it, and every ENV binding
      is passed as it stands. */
  function HostEnv(env: map<string, string>, target: string): (r: map<string, string>)
    ensures r.Keys == env.Keys + {"TARGET"}
    ensures forall k :: k in env ==> r[k] == env[k]
    ensures "TARGET" !in env ==> r["TARGET"] == target
  {
    map["TARGET" := target] + env
  }

  /** Runs the step's command on the working subvolume's files: HOST
      through the host shell with the extended environment, RUN in the
      container with the Dockerfile's environment, anything else not at
      all. */
  function RunCommand(bc: BuildCommand, env: map<string, string>, target: string, files: Files, exec: Exec)
    : (r: Completion)
    ensures bc.cmd != "host" && bc.cmd != "run" ==> r == Completion(files, true)
  {
    if bc.cmd == "host" then exec(HostShell, bc.args, HostEnv(env, target), files)
    else if bc.cmd == "run" then exec(Container, bc.args, env, files)
    else Completion(files, true)
  }

  /** The root attributes after labelling: `user.parrent_hash` is the
      parent, the step's `user.cmd.<cmd>` holds its arguments, no other
      `user.cmd.host`/`user.cmd.run` is left, and every other attribute is
      kept. */
  function SealedAttrs(attrs: map<string, string>, parent: string, bc: BuildCommand): (r: map<string, string>)
    ensures ParentAttr in r && r[ParentAttr] == parent
    ensures CmdAttr(bc.cmd) in r && r[CmdAttr(bc.cmd)] == bc.args
    ensures forall k :: k in CmdAttrs && k != CmdAttr(bc.cmd) ==> k !in r
    ensures forall k :: k != ParentAttr && k !in CmdAttrs && k != CmdAttr(bc.cmd) ==>
      (k in r <==> k in attrs) && (k in attrs ==> r[k] == attrs[k])
  {
    (attrs[ParentAttr := parent] - {CmdAttrs[0], CmdAttrs[1]})[CmdAttr(bc.cmd) := bc.args]
  }

  /** Whether the step on `h` can start from `parent`: the first step
      starts from nothing, a later one needs its parent's subvolume, which
      must not be the working subvolume deleted first. */
  predicate BaseReady(vols: Store, parent: string, h: string) {
    parent == "" || (parent in vols && parent != WorkingName(h))
  }

  /** The working subvolume as it starts: empty and writable, or a
      writable snapshot of the parent. */
  function Base(vols: Store, parent: string, h: string): (v: Volume)
    requires BaseReady(vols, parent, h)
    ensures !v.readonly
    ensures parent == "" ==> v == Volume(false, map[], map[])
    ensures parent != "" ==> v.attrs == vols[parent].attrs && v.files == vols[parent].files
  {
    if parent == "" then Volume(false, map[], map[]) else vols[parent].(readonly := false)
  }

  datatype StepOutcome = StepOutcome(vols: Store, ok: bool)

  /** One iteration of the loop in `build` over the store `vols`. It
      succeeds exactly when the step's subvolume is there afterwards, and
      it touches no name but the step's digest and its working subvolume. */
  function RunStep(vols: Store, parent: string, bc: BuildCommand, env: map<string, string>, runtime: string, exec: Exec)
    : (r: StepOutcome)
    ensures r.ok <==> bc.argsHash in r.vols
    ensures SameElsewhere(vols, r.vols, {bc.argsHash, WorkingName(bc.argsHash)})
  {
    var h := bc.argsHash;
    var target := WorkingName(h);
    assert h != target;
    if h in vols then StepOutcome(vols, true)
    else if !BaseReady(vols, parent, h) then StepOutcome(vols - {target}, false)
    else
      var base := Base(vols, parent, h);
      var done := RunCommand(bc, env, VolumePath(runtime, target), base.files, exec);
      if done.success then
        StepOutcome((vols - {target})[h := Volume(true, SealedAttrs(base.attrs, parent, bc), done.files)], true)
      else
        StepOutcome((vols - {target})[target := base.(files := done.files)], false)
  }

  /** The loop state after the steps `bcs`: the store, `parrent_hash`, and
      the step that failed, if one did. */
  datatype Progress = Progress(vols: Store, parent: string, failed: Option<BuildCommand>)

  /** The loop of `build` from store `vols` and parent `parent`; it stops
      at the first step that fails, which is one of `bcs`, and a loop that
      finishes leaves `parrent_hash` at the last step's digest. */
  function RunSteps(vols: Store, parent: string, bcs: seq<BuildCommand>, env: map<string, string>, runtime: string, exec: Exec)
    : (p: Progress)
    ensures p.failed.Some? ==> p.failed.value in bcs
    ensures p.failed.None? ==> p.parent == if bcs == [] then parent else bcs[|bcs| - 1].argsHash
    decreases |bcs|
  {
    if bcs == [] then Progress(vols, parent, None)
    else
      var r := RunStep(vols, parent, bcs[0], env, runtime, exec);
      if r.ok then
        var rest := bcs[1..];
        var p := RunSteps(r.vols, bcs[0].argsHash, rest, env, runtime, exec);
        assert p.failed.Some? ==> p.failed.value in rest;
        assert rest != [] ==> rest[|rest| - 1] == bcs[|bcs| - 1];
        p
      else Progress(r.vols, parent, Some(bcs[0]))
  }

  datatype BuildOutcome =
    | ParseFailed(error: ParseError)
    | NothingToDo
    | BaseNotScratch
    | StepFailed(step: BuildCommand)
    | Built(image: string)

  /** What `build` does to the runtime directory `vols` for the Dockerfile
      `raw`, and how it ends. Only a build that reaches the loop changes
      the store, and a step it fails on is one of the parsed steps. */
  function BuildSpec(vols: Store, raw: seq<string>, digest: Digest, runtime: string, exec: Exec)
    : (r: (BuildOutcome, Store))
    ensures !r.0.Built? && !r.0.StepFailed? ==> r.1 == vols
    ensures r.0.StepFailed? ==> r.0.step in Parse(raw, digest).state.buildCommands
  {
    var run := Parse(raw, digest);
    if run.error.Some? then (ParseFailed(run.error.value), vols)
    else if run.state.buildCommands == [] then (NothingToDo, vols)
    else if run.state.fromImage != Some("scratch") then (BaseNotScratch, vols)
    else
      var p := RunSteps(vols, "", run.state.buildCommands, run.state.env, runtime, exec);
      (if p.failed.Some? then StepFailed(p.failed.value) else Built(p.parent), p.vols)
  }

  /** The names listed in `keys`. */
  function Keys(keys: seq<string>): set<string> {
    set k | k in keys
  }

  /** The `removexattr` loop: clears both `user.cmd.*` attributes of
      `target`, an absent one being no error. */
  method ClearCmdAttrs(store: VolumeStore, target: string)
    requires target in store.volumes && !store.volumes[target].readonly
    modifies store
    ensures store.volumes == old(store.volumes)[target :=
      old(store.volumes)[target].(attrs := old(store.volumes)[target].attrs - {CmdAttrs[0], CmdAttrs[1]})]
  {
    var v := store.volumes[target];
    ghost var mid := store.volumes;
    assert v.(attrs := v.attrs - Keys(CmdAttrs[..0])) == v;
    for j := 0 to |CmdAttrs|
      invariant target in mid && v == mid[target]
      invariant store.volumes == mid[target := v.(attrs := v.attrs - Keys(CmdAttrs[..j]))]
    {
      ghost var kept := v.attrs - Keys(CmdAttrs[..j]);
      var removed := store.RemoveAttr(target, CmdAttrs[j]);
      assert Keys(CmdAttrs[..j + 1]) == Keys(CmdAttrs[..j]) + {CmdAttrs[j]};
      assert kept - {CmdAttrs[j]} == v.attrs - Keys(CmdAttrs[..j + 1]);
      if !removed {
        assert kept - {CmdAttrs[j]} == kept;
      }
    }
    assert CmdAttrs[..|CmdAttrs|] == CmdAttrs;
    assert Keys(CmdAttrs) == {CmdAttrs[0], CmdAttrs[1]};
  }

  /** Labels the working subvolume `target`: records the parent, clears
      both `user.cmd.*` attributes and records the step's arguments under
      its directive. */
  method Label(store: VolumeStore, target: string, parent: string, bc: BuildCommand)
    requires target in store.volumes && !store.volumes[target].readonly
    modifies store
    ensures store.volumes == old(store.volumes)[target :=
      old(store.volumes)[target].(attrs := SealedAttrs(old(store.volumes)[target].attrs, parent, bc))]
  {
    var labelled := store.SetAttr(target, ParentAttr, parent);
    assert labelled;
    ClearCmdAttrs(store, target);
    labelled := store.SetAttr(target, CmdAttr(bc.cmd), bc.args);
    assert labelled;
  }

  /** Makes the working subvolume `WorkingName(h)`: deletes a stale one
      left by an interrupted build, then creates it empty or snapshots the
      parent into it. Fails, with the stale one gone, when the parent's
      subvolume is missing. */
  method Prepare(store: VolumeStore, parent: string, h: string) returns (ok: bool)
    modifies store
    ensures ok <==> BaseReady(old(store.volumes), parent, h)
    ensures store.volumes == if ok
      then (old(store.volumes) - {WorkingName(h)})[WorkingName(h) := Base(old(store.volumes), parent, h)]
      else old(store.volumes) - {WorkingName(h)}
  {
    var target := WorkingName(h);
    var before := store.volumes;
    var stale := store.Exists(target);
    if stale {
      var deleted := store.Delete(target);
      assert deleted;
    }
    assert store.volumes == before - {target};
    if parent != "" {
      ok := store.Snapshot(parent, target, false);
    } else {
      ok := store.Create(target);
      assert ok;
    }
  }

  /** Runs the step's command in the working subvolume `target`, whose path
      is `path`. The subvolume keeps what the command wrote, whether or
      not it succeeded. */
  method RunIn(store: VolumeStore, target: string, path: string, bc: BuildCommand, env: map<string, string>, exec: Exec)
    returns (ok: bool)
    requires target in store.volumes
    modifies store
    ensures ok <==> RunCommand(bc, env, path, old(store.volumes)[target].files, exec).success
    ensures store.volumes == old(store.volumes)[target := old(store.volumes)[target].(
      files := RunCommand(bc, env, path, old(store.volumes)[target].files, exec).files)]
  {
    if bc.cmd == "host" {
      ok := store.Execute(target, HostShell, bc.args, HostEnv(env, path), exec);
    } else if bc.cmd == "run" {
      ok := store.Execute(target, Container, bc.args, env, exec);
    } else {
      ok := true;
      assert old(store.volumes)[target := old(store.volumes)[target].(files := old(store.volumes)[target].files)]
          == store.volumes;
    }
  }

  /** Seals the working subvolume `target` as the read-only subvolume `h`
      and deletes it. */
  method Seal(store: VolumeStore, target: string, parent: string, bc: BuildCommand)
    requires target in store.volumes && !store.volumes[target].readonly
    requires bc.argsHash !in store.volumes && bc.argsHash != target
    modifies store
    ensures store.volumes == (old(store.volumes) - {target})[bc.argsHash :=
      Volume(true, SealedAttrs(old(store.volumes)[target].attrs, parent, bc), old(store.volumes)[target].files)]
  {
    Label(store, target, parent, bc);
    var sealed := store.Snapshot(target, bc.argsHash, true);
    assert sealed;
    var discarded := store.Delete(target);
    assert discarded;
  }

  /** One step of the loop, as calls on the store. */
  method Step(store: VolumeStore, parent: string, bc: BuildCommand, env: map<string, string>, runtime: string, exec: Exec)
    returns (ok: bool)
    modifies store
    ensures StepOutcome(store.volumes, ok) == RunStep(old(store.volumes), parent, bc, env, runtime, exec)
  {
    var h := bc.argsHash;
    var target := WorkingName(h);
    var cached := store.Exists(h);
    if cached {
      return true;
    }
    ghost var vols := old(store.volumes);
    var path := VolumePath(runtime, target);
    ok := Prepare(store, parent, h);
    if !ok {
      return;
    }
    ghost var base := Base(vols, parent, h);
    ghost var done := RunCommand(bc, env, path, base.files, exec);
    assert store.volumes[target] == base;
    ok := RunIn(store, target, path, bc, env, exec);
    ghost var mid := store.volumes;
    assert mid == (vols - {target})[target := base.(files := done.files)];
    if !ok {
      return;
    }
    assert mid - {target} == vols - {target};
    Seal(store, target, parent, bc);
    assert store.volumes == (vols - {target})[h := Volume(true, SealedAttrs(base.attrs, parent, bc), done.files)];
  }

  /** The `build` command over the store `store`, from the Dockerfile's
      physical lines. */
  method Build(store: VolumeStore, raw: seq<string>, digest: Digest, runtime: string, exec: Exec)
    returns (outcome: BuildOutcome)
    modifies store
    ensures (outcome, store.volumes) == BuildSpec(old(store.volumes), raw, digest, runtime, exec)
  {
    var loaded := Load(raw, digest);
    if loaded.Failure? {
      return ParseFailed(loaded.error);
    }
    var df := loaded.value;
    var bcs := df.buildCommands;
    var env := df.env;
    if bcs == [] {
      return NothingToDo;
    }
    if df.fromImage != Some("scratch") {
      return BaseNotScratch;
    }
    var parent := "";
    for i := 0 to |bcs|
      invariant RunSteps(store.volumes, parent, bcs[i..], env, runtime, exec)
             == RunSteps(old(store.volumes), "", bcs, env, runtime, exec)
    {
      assert bcs[i..][0] == bcs[i] && bcs[i..][1..] == bcs[i + 1..];
      var ok := Step(store, parent, bcs[i], env, runtime, exec);
      if !ok {
        return StepFailed(bcs[i]);
      }
      parent := bcs[i].argsHash;
    }
    return Built(parent);
  }
}
