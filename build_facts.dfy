/** Properties of the build loop: what a cache hit, a fresh step and a
    failed step leave in the runtime directory, what the whole loop leaves,
    and that building the same Dockerfile again reuses every step. */
module BuildFacts {
  import opened Optional
  import opened PyStr
  import opened Dockerfile
  import opened ParserFacts
  import opened Volumes
  import opened Builder

  /** A cache hit leaves the store as it is and succeeds, whatever the
      commands would do (none runs) and whatever the current parent is: the
      cache key is the digest of the step's arguments alone, so the
      `user.parrent_hash` recorded on the cached subvolume is never
      compared with the parent. */
  lemma CacheHit(vols: Store, parent: string, other: string, bc: BuildCommand,
                 env: map<string, string>, runtime: string, exec: Exec, exec2: Exec)
    requires bc.argsHash in vols
    ensures RunStep(vols, parent, bc, env, runtime, exec) == StepOutcome(vols, true)
    ensures RunStep(vols, other, bc, env, runtime, exec2) == RunStep(vols, parent, bc, env, runtime, exec)
  {
  }

  /** A step succeeds exactly when it is cached, or when its parent's
      subvolume is there and its command succeeds. */
  lemma StepSucceeds(vols: Store, parent: string, bc: BuildCommand,
                     env: map<string, string>, runtime: string, exec: Exec)
    ensures RunStep(vols, parent, bc, env, runtime, exec).ok <==>
      bc.argsHash in vols ||
      (BaseReady(vols, parent, bc.argsHash) &&
       RunCommand(bc, env, VolumePath(runtime, WorkingName(bc.argsHash)),
                  Base(vols, parent, bc.argsHash).files, exec).success)
  {
  }

  /** After a step that was not cached and succeeded: the working
      subvolume is gone, the sealed one exists read-only, holds what the
      command made of the parent's files (or of an empty subvolume
      when there is no parent), records the parent and the step's
      directive, and nothing else in the store changed. */
  lemma StepBuilt(vols: Store, parent: string, bc: BuildCommand,
                  env: map<string, string>, runtime: string, exec: Exec)
    requires bc.argsHash !in vols
    requires RunStep(vols, parent, bc, env, runtime, exec).ok
    ensures BaseReady(vols, parent, bc.argsHash)
    ensures var r := RunStep(vols, parent, bc, env, runtime, exec).vols;
      && bc.argsHash in r && r[bc.argsHash].readonly
      && WorkingName(bc.argsHash) !in r
      && RunCommand(bc, env, VolumePath(runtime, WorkingName(bc.argsHash)),
                    Base(vols, parent, bc.argsHash).files, exec) == Completion(r[bc.argsHash].files, true)
      && r[bc.argsHash].attrs == SealedAttrs(Base(vols, parent, bc.argsHash).attrs, parent, bc)
      && SameElsewhere(vols, r, {bc.argsHash, WorkingName(bc.argsHash)})
    ensures parent == "" ==>
      var r := RunStep(vols, parent, bc, env, runtime, exec).vols;
      && RunCommand(bc, env, VolumePath(runtime, WorkingName(bc.argsHash)), map[], exec)
           == Completion(r[bc.argsHash].files, true)
      && r[bc.argsHash].attrs == map[ParentAttr := "", CmdAttr(bc.cmd) := bc.args]
    ensures parent != "" ==>
      RunCommand(bc, env, VolumePath(runtime, WorkingName(bc.argsHash)), vols[parent].files, exec)
        == Completion(RunStep(vols, parent, bc, env, runtime, exec).vols[bc.argsHash].files, true)
  {
    var h := bc.argsHash;
    var r := RunStep(vols, parent, bc, env, runtime, exec).vols;
    var base := Base(vols, parent, h);
    var files := RunCommand(bc, env, VolumePath(runtime, WorkingName(h)), base.files, exec).files;
    assert r == (vols - {WorkingName(h)})[h := Volume(true, SealedAttrs(base.attrs, parent, bc), files)];
    assert h != WorkingName(h);
    if parent == "" {
      assert SealedAttrs(map[], "", bc) == map[ParentAttr := "", CmdAttr(bc.cmd) := bc.args];
    }
  }

  /** After a step that failed: it was not cached; the stale working
      subvolume is gone; and either the parent's subvolume was missing and
      nothing more happened, or the command failed on the working
      subvolume as it started, which is left holding the files the command
      left behind, for the next build to delete. Nothing else changed. */
  lemma StepFailedState(vols: Store, parent: string, bc: BuildCommand,
                        env: map<string, string>, runtime: string, exec: Exec)
    requires !RunStep(vols, parent, bc, env, runtime, exec).ok
    ensures bc.argsHash !in vols
    ensures var r := RunStep(vols, parent, bc, env, runtime, exec).vols;
      && SameElsewhere(vols, r, {WorkingName(bc.argsHash)})
      && (WorkingName(bc.argsHash) in r <==> BaseReady(vols, parent, bc.argsHash))
      && (BaseReady(vols, parent, bc.argsHash) ==>
            var done := RunCommand(bc, env, VolumePath(runtime, WorkingName(bc.argsHash)),
                                   Base(vols, parent, bc.argsHash).files, exec);
            && !done.success
            && r[WorkingName(bc.argsHash)] == Base(vols, parent, bc.argsHash).(files := done.files))
  {
  }

  /** No step's digest is the name of another step's working subvolume. */
  ghost predicate NoInitCollision(bcs: seq<BuildCommand>) {
    forall i, j :: 0 <= i < |bcs| && 0 <= j < |bcs| ==> bcs[i].argsHash != WorkingName(bcs[j].argsHash)
  }

  /** The loop may start from `parent`: there is none yet, or its subvolume
      exists and is none of the working subvolumes the steps delete. */
  ghost predicate ParentOk(vols: Store, parent: string, bcs: seq<BuildCommand>) {
    parent == "" || (parent in vols && forall j :: 0 <= j < |bcs| ==> parent != WorkingName(bcs[j].argsHash))
  }

  /** Every name the steps `bcs` can touch. */
  ghost function Touched(bcs: seq<BuildCommand>): set<string> {
    (set j | 0 <= j < |bcs| :: bcs[j].argsHash) + (set j | 0 <= j < |bcs| :: WorkingName(bcs[j].argsHash))
  }

  /** Digests written in hexadecimal, as SHA-256 `hexdigest()` is, never
      collide with a working subvolume's name, which contains a `-`. */
  lemma HexDigestsDoNotCollide(bcs: seq<BuildCommand>)
    requires forall i :: 0 <= i < |bcs| ==> '-' !in bcs[i].argsHash
    ensures NoInitCollision(bcs)
  {
    forall i, j | 0 <= i < |bcs| && 0 <= j < |bcs| ensures bcs[i].argsHash != WorkingName(bcs[j].argsHash) {
      var w := WorkingName(bcs[j].argsHash);
      assert w[|bcs[j].argsHash|] == '-';
    }
  }

  /** Two changes that each keep every name outside `touched` keep it
      together. */
  lemma SameElsewhereChain(a: Store, b: Store, c: Store, first: set<string>, second: set<string>, touched: set<string>)
    requires SameElsewhere(a, b, first) && SameElsewhere(b, c, second)
    requires first <= touched && second <= touched
    ensures SameElsewhere(a, c, touched)
  {
  }

  /** The names the later steps touch are among those of all the steps. */
  lemma TouchedSplit(bcs: seq<BuildCommand>)
    requires bcs != []
    ensures {bcs[0].argsHash, WorkingName(bcs[0].argsHash)} <= Touched(bcs)
    ensures Touched(bcs[1..]) <= Touched(bcs)
  {
    forall n | n in Touched(bcs[1..]) ensures n in Touched(bcs) {
      var j :| 0 <= j < |bcs[1..]| && (n == bcs[1..][j].argsHash || n == WorkingName(bcs[1..][j].argsHash));
      assert bcs[1..][j] == bcs[j + 1];
    }
  }

  /** The loop changes no subvolume outside the names its steps use. */
  lemma {:induction false} StepsFrame(vols: Store, parent: string, bcs: seq<BuildCommand>,
                                      env: map<string, string>, runtime: string, exec: Exec)
    ensures SameElsewhere(vols, RunSteps(vols, parent, bcs, env, runtime, exec).vols, Touched(bcs))
    decreases |bcs|
  {
    if bcs != [] {
      var h := bcs[0].argsHash;
      var r := RunStep(vols, parent, bcs[0], env, runtime, exec);
      TouchedSplit(bcs);
      if r.ok {
        StepsFrame(r.vols, h, bcs[1..], env, runtime, exec);
        SameElsewhereChain(vols, r.vols, RunSteps(r.vols, h, bcs[1..], env, runtime, exec).vols,
                           {h, WorkingName(h)}, Touched(bcs[1..]), Touched(bcs));
      }
    }
  }

  /** A subvolume that is no step's working subvolume survives the loop. */
  lemma {:induction false} StepsKeep(vols: Store, parent: string, bcs: seq<BuildCommand>,
                                     env: map<string, string>, runtime: string, exec: Exec, n: string)
    requires n in vols && forall j :: 0 <= j < |bcs| ==> n != WorkingName(bcs[j].argsHash)
    ensures n in RunSteps(vols, parent, bcs, env, runtime, exec).vols
    decreases |bcs|
  {
    if bcs != [] {
      var r := RunStep(vols, parent, bcs[0], env, runtime, exec);
      assert n != WorkingName(bcs[0].argsHash);
      if r.ok {
        assert forall j :: 0 <= j < |bcs[1..]| ==> bcs[1..][j] == bcs[j + 1];
        StepsKeep(r.vols, bcs[0].argsHash, bcs[1..], env, runtime, exec, n);
      }
    }
  }

  /** A first step that succeeds leaves its subvolume as a valid parent
      for the remaining steps. */
  lemma FirstStepAdvances(vols: Store, parent: string, bcs: seq<BuildCommand>,
                          env: map<string, string>, runtime: string, exec: Exec)
    requires NoInitCollision(bcs) && ParentOk(vols, parent, bcs) && bcs != []
    requires RunStep(vols, parent, bcs[0], env, runtime, exec).ok
    ensures var r := RunStep(vols, parent, bcs[0], env, runtime, exec);
      && bcs[0].argsHash in r.vols
      && (forall j :: 0 <= j < |bcs[1..]| ==> bcs[0].argsHash != WorkingName(bcs[1..][j].argsHash))
      && NoInitCollision(bcs[1..])
      && ParentOk(r.vols, bcs[0].argsHash, bcs[1..])
  {
    var rest := bcs[1..];
    assert forall j :: 0 <= j < |rest| ==> rest[j] == bcs[j + 1];
  }

  /** When no digest collides with a working subvolume, a loop that
      finishes leaves every step's subvolume in the store and `parrent_hash`
      at the last step's digest. */
  lemma {:induction false} StepsFinish(vols: Store, parent: string, bcs: seq<BuildCommand>,
                                       env: map<string, string>, runtime: string, exec: Exec)
    requires NoInitCollision(bcs) && ParentOk(vols, parent, bcs)
    ensures var p := RunSteps(vols, parent, bcs, env, runtime, exec);
      && (p.failed.None? ==> forall j :: 0 <= j < |bcs| ==> bcs[j].argsHash in p.vols)
      && (p.failed.None? ==> p.parent == if bcs == [] then parent else bcs[|bcs| - 1].argsHash)
    decreases |bcs|
  {
    if bcs != [] {
      var h := bcs[0].argsHash;
      var r := RunStep(vols, parent, bcs[0], env, runtime, exec);
      if r.ok {
        var rest := bcs[1..];
        FirstStepAdvances(vols, parent, bcs, env, runtime, exec);
        StepsFinish(r.vols, h, rest, env, runtime, exec);
        StepsKeep(r.vols, h, rest, env, runtime, exec, h);
        var p := RunSteps(r.vols, h, rest, env, runtime, exec);
        assert p == RunSteps(vols, parent, bcs, env, runtime, exec);
        if p.failed.None? {
          forall j | 0 <= j < |bcs| ensures bcs[j].argsHash in p.vols {
            if j > 0 {
              assert bcs[j] == rest[j - 1];
            }
          }
        }
      }
    }
  }

  /** When no digest collides with a working subvolume, a loop that stops
      does so only because a step's HOST or RUN command failed, and that
      step's working subvolume is left, writable, holding the files the
      failing command left behind. */
  lemma {:induction false} StepsStop(vols: Store, parent: string, bcs: seq<BuildCommand>,
                                     env: map<string, string>, runtime: string, exec: Exec)
    requires NoInitCollision(bcs) && ParentOk(vols, parent, bcs)
    ensures var p := RunSteps(vols, parent, bcs, env, runtime, exec);
      p.failed.Some? ==>
        var bc := p.failed.value;
        var w := WorkingName(bc.argsHash);
        && (bc.cmd == "host" || bc.cmd == "run")
        && w in p.vols && !p.vols[w].readonly
        && exists files :: RunCommand(bc, env, VolumePath(runtime, w), files, exec) == Completion(p.vols[w].files, false)
    decreases |bcs|
  {
    if bcs != [] {
      var bc := bcs[0];
      var r := RunStep(vols, parent, bc, env, runtime, exec);
      if r.ok {
        FirstStepAdvances(vols, parent, bcs, env, runtime, exec);
        StepsStop(r.vols, bc.argsHash, bcs[1..], env, runtime, exec);
      } else {
        assert BaseReady(vols, parent, bc.argsHash);
        StepFailedState(vols, parent, bc, env, runtime, exec);
        var w := WorkingName(bc.argsHash);
        var base := Base(vols, parent, bc.argsHash);
        assert RunCommand(bc, env, VolumePath(runtime, w), base.files, exec) == Completion(r.vols[w].files, false);
      }
    }
  }

  /** The loop stops on step `k`: the steps before it finish, and step
      `k` then fails on what they left, leaving `after`. */
  ghost predicate StopsAt(vols: Store, parent: string, bcs: seq<BuildCommand>, k: int,
                          env: map<string, string>, runtime: string, exec: Exec, after: Store)
  {
    0 <= k < |bcs| &&
    var q := RunSteps(vols, parent, bcs[..k], env, runtime, exec);
    q.failed.None? && RunStep(q.vols, q.parent, bcs[k], env, runtime, exec) == StepOutcome(after, false)
  }

  /** Running the first `k + 1` steps, when the first succeeds, is running
      the next `k` from what it left. */
  lemma PrefixAfterFirst(vols: Store, parent: string, bcs: seq<BuildCommand>, k: nat,
                         env: map<string, string>, runtime: string, exec: Exec)
    requires k < |bcs|
    requires RunStep(vols, parent, bcs[0], env, runtime, exec).ok
    ensures RunSteps(vols, parent, bcs[..k + 1], env, runtime, exec)
         == RunSteps(RunStep(vols, parent, bcs[0], env, runtime, exec).vols, bcs[0].argsHash, bcs[1..][..k], env, runtime, exec)
  {
    var prefix := bcs[..k + 1];
    assert prefix[0] == bcs[0] && prefix[1..] == bcs[1..][..k];
  }

  /** A loop that stops on a step: the steps before it ran to the end,
      the failing step then ran once on what they left and ended the loop
      with its own outcome, so no later step ran and the failing step's
      digest is absent. */
  lemma {:induction false} StepsAbort(vols: Store, parent: string, bcs: seq<BuildCommand>,
                                      env: map<string, string>, runtime: string, exec: Exec)
    ensures var p := RunSteps(vols, parent, bcs, env, runtime, exec);
      p.failed.Some? ==>
        && p.failed.value.argsHash !in p.vols
        && exists k :: 0 <= k < |bcs| && p.failed.value == bcs[k] && StopsAt(vols, parent, bcs, k, env, runtime, exec, p.vols)
    decreases |bcs|
  {
    var p := RunSteps(vols, parent, bcs, env, runtime, exec);
    if bcs != [] && p.failed.Some? {
      var r := RunStep(vols, parent, bcs[0], env, runtime, exec);
      if r.ok {
        var rest := bcs[1..];
        StepsAbort(r.vols, bcs[0].argsHash, rest, env, runtime, exec);
        var k :| 0 <= k < |rest| && p.failed.value == rest[k] && StopsAt(r.vols, bcs[0].argsHash, rest, k, env, runtime, exec, p.vols);
        PrefixAfterFirst(vols, parent, bcs, k, env, runtime, exec);
        assert rest[k] == bcs[k + 1];
        assert StopsAt(vols, parent, bcs, k + 1, env, runtime, exec, p.vols);
      } else {
        assert bcs[..0] == [];
        assert StopsAt(vols, parent, bcs, 0, env, runtime, exec, p.vols);
      }
    }
  }

  /** When every step's subvolume is already there, the loop changes
      nothing, runs no command and ends at the last step's digest. */
  lemma {:induction false} AllCached(vols: Store, parent: string, bcs: seq<BuildCommand>,
                                     env: map<string, string>, runtime: string, exec: Exec)
    requires forall j :: 0 <= j < |bcs| ==> bcs[j].argsHash in vols
    ensures RunSteps(vols, parent, bcs, env, runtime, exec)
         == Progress(vols, if bcs == [] then parent else bcs[|bcs| - 1].argsHash, None)
    decreases |bcs|
  {
    if bcs != [] {
      var rest := bcs[1..];
      assert forall j :: 0 <= j < |rest| ==> rest[j] == bcs[j + 1];
      AllCached(vols, bcs[0].argsHash, rest, env, runtime, exec);
      if rest != [] {
        assert rest[|rest| - 1] == bcs[|bcs| - 1];
      }
    }
  }

  /** A Dockerfile that cannot be parsed, has no HOST or RUN step, or is
      not built `FROM scratch` leaves the store untouched; the check for
      steps comes before the check of the base. */
  lemma BuildStopsEarly(vols: Store, raw: seq<string>, digest: Digest, runtime: string, exec: Exec)
    ensures var run := Parse(raw, digest);
      && (BuildSpec(vols, raw, digest, runtime, exec).0.ParseFailed? <==> run.error.Some?)
      && (BuildSpec(vols, raw, digest, runtime, exec).0 == NothingToDo <==>
            run.error.None? && run.state.buildCommands == [])
      && (BuildSpec(vols, raw, digest, runtime, exec).0 == BaseNotScratch <==>
            run.error.None? && run.state.buildCommands != [] && run.state.fromImage != Some("scratch"))
      && (!BuildSpec(vols, raw, digest, runtime, exec).0.StepFailed? &&
          !BuildSpec(vols, raw, digest, runtime, exec).0.Built? ==>
            BuildSpec(vols, raw, digest, runtime, exec).1 == vols)
  {
  }

  /** A build that finishes leaves a subvolume for every step, ends at the
      last step's digest, and touches no subvolume other than the steps'
      own and their working subvolumes. */
  lemma BuildFinished(vols: Store, raw: seq<string>, digest: Digest, runtime: string, exec: Exec)
    requires BuildSpec(vols, raw, digest, runtime, exec).0.Built?
    requires NoInitCollision(Parse(raw, digest).state.buildCommands)
    ensures var bcs := Parse(raw, digest).state.buildCommands;
      var (outcome, after) := BuildSpec(vols, raw, digest, runtime, exec);
      && bcs != []
      && outcome.image == bcs[|bcs| - 1].argsHash
      && (forall j :: 0 <= j < |bcs| ==> bcs[j].argsHash in after)
      && SameElsewhere(vols, after, Touched(bcs))
  {
    var st := Parse(raw, digest).state;
    StepsFinish(vols, "", st.buildCommands, st.env, runtime, exec);
    StepsFrame(vols, "", st.buildCommands, st.env, runtime, exec);
  }

  /** A build that stops at a step stops because that step's HOST or RUN
      command failed; its working subvolume is left behind, holding what
      the failing command left, its digest is absent, and the parsed steps
      before it ran to the end. */
  lemma BuildFailed(vols: Store, raw: seq<string>, digest: Digest, runtime: string, exec: Exec)
    requires BuildSpec(vols, raw, digest, runtime, exec).0.StepFailed?
    requires NoInitCollision(Parse(raw, digest).state.buildCommands)
    ensures var st := Parse(raw, digest).state;
      var (outcome, after) := BuildSpec(vols, raw, digest, runtime, exec);
      var bc := outcome.step;
      var w := WorkingName(bc.argsHash);
      && bc in st.buildCommands
      && (bc.cmd == "host" || bc.cmd == "run")
      && w in after && !after[w].readonly
      && (exists files :: RunCommand(bc, st.env, VolumePath(runtime, w), files, exec) == Completion(after[w].files, false))
      && bc.argsHash !in after
      && (exists k :: 0 <= k < |st.buildCommands| && bc == st.buildCommands[k] &&
                      StopsAt(vols, "", st.buildCommands, k, st.env, runtime, exec, after))
  {
    var st := Parse(raw, digest).state;
    StepsStop(vols, "", st.buildCommands, st.env, runtime, exec);
    StepsAbort(vols, "", st.buildCommands, st.env, runtime, exec);
  }

  /** Running the loop again after it finished reuses every step. */
  lemma StepsRerun(vols: Store, bcs: seq<BuildCommand>, env: map<string, string>, runtime: string, exec: Exec, exec2: Exec)
    requires NoInitCollision(bcs)
    requires RunSteps(vols, "", bcs, env, runtime, exec).failed.None?
    ensures var p := RunSteps(vols, "", bcs, env, runtime, exec);
      RunSteps(p.vols, "", bcs, env, runtime, exec2) == p
  {
    StepsFinish(vols, "", bcs, env, runtime, exec);
    AllCached(RunSteps(vols, "", bcs, env, runtime, exec).vols, "", bcs, env, runtime, exec2);
  }

  /** Building the same Dockerfile again after a finished build reuses
      every step: it runs no command (whatever the commands would now do),
      leaves the store unchanged and ends at the same digest. */
  lemma RebuildIsCached(vols: Store, raw: seq<string>, digest: Digest, runtime: string, exec: Exec, exec2: Exec)
    requires BuildSpec(vols, raw, digest, runtime, exec).0.Built?
    requires NoInitCollision(Parse(raw, digest).state.buildCommands)
    ensures var first := BuildSpec(vols, raw, digest, runtime, exec);
      BuildSpec(first.1, raw, digest, runtime, exec2) == first
  {
    var run := Parse(raw, digest);
    var p := RunSteps(vols, "", run.state.buildCommands, run.state.env, runtime, exec);
    assert BuildSpec(vols, raw, digest, runtime, exec) == (Built(p.parent), p.vols);
    StepsRerun(vols, run.state.buildCommands, run.state.env, runtime, exec, exec2);
    assert BuildSpec(p.vols, raw, digest, runtime, exec2) == (Built(p.parent), p.vols);
  }

  /** With hexadecimal digests, as SHA-256 `hexdigest()` gives, the
      parsed steps never collide with a working subvolume. */
  lemma ParsedStepsDoNotCollide(raw: seq<string>, digest: Digest)
    requires forall s :: '-' !in digest(s)
    ensures NoInitCollision(Parse(raw, digest).state.buildCommands)
  {
    var st := Parse(raw, digest).state;
    ParseConsistent(raw, digest);
    assert st.buildCommands == Commands(st.lines, digest);
    HexDigestsDoNotCollide(st.buildCommands);
  }
}
