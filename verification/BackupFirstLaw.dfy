/** The law that both transaction engines obey, and where each of them falls short of it. */
module BackupFirstLaw {
  import opened Common
  import opened Json
  import opened ProductionProtocol
  import opened SysctlManifests
  import opened TransactionModel
  import opened TransactionSpec
  import Engine = TransactionEngine
  import S = SyntheticModel
  import Utf8

  /** A transaction that answers has reached its goal, or left everything as it was, or holds the lock;
      and if it answers with success, it has reached its goal and nothing is locked. */
  ghost predicate AllOrNothing<W(!new)>(pre: W, post: W, marker: Marker, succeeded: bool,
                                        goal: W -> bool, same: (W, W) -> bool) {
    && (goal(post) || same(pre, post) || marker != Clear)
    && (succeeded ==> goal(post) && marker == Clear)
  }

  // ----- the sysctl engine -----

  lemma SysctlApplyObeys(m: SysctlManifest, req: ProductionRequest, pre: State, reply: Reply, post: State)
    requires Knows(m, req.moduleIds) && Hosts(pre.world, m.modules)
    requires ApplySpec(m, req, pre, Returned(reply), post)
    ensures AllOrNothing(pre.world, post.world, post.marker, reply.status == Succeeded,
                         w => Desired(w, Selected(m, req.moduleIds)), (a, b) => Equivalent(a, b))
  {
    var mods := Selected(m, req.moduleIds);
    SelectedIsHosted(m, pre.world, req.moduleIds);
    if pre.marker == Clear && Matches(post.world, SnapshotOf(m, mods, pre.world)) {
      RestoredIsEquivalent(m, mods, pre.world, post.world);
    }
  }

  lemma SysctlRollbackObeys(m: SysctlManifest, req: ProductionRequest, pre: State, reply: Reply, post: State, cleared: Option<World>)
    requires req.backupId.Some? && Hosts(pre.world, m.modules) && Accepted(m, pre.store, req.backupId.value)
    requires RollbackSpec(m, req, pre, Returned(reply), post, cleared)
    ensures AllOrNothing(pre.world, post.world, post.marker, reply.status == Succeeded,
                         w => Matches(w, pre.store[req.backupId.value].snapshot), (a, b) => Equivalent(a, b))
  {
    var target := pre.store[req.backupId.value].snapshot;
    var mods := Selected(m, target.moduleIds);
    SelectedIsHosted(m, pre.world, target.moduleIds);
    if pre.marker in {Clear, Required(req.backupId.value)} && Matches(post.world, SnapshotOf(m, mods, pre.world)) {
      RestoredIsEquivalent(m, mods, pre.world, post.world);
    }
  }

  /** An answering rollback that releases the marker of its backup has restored that backup, except when
      the directory sync after the unlink raised: then it is back where it started, and unlocked. */
  lemma SysctlReleases(m: SysctlManifest, req: ProductionRequest, pre: State, reply: Reply, post: State, cleared: Option<World>)
    requires req.backupId.Some? && Hosts(pre.world, m.modules) && Accepted(m, pre.store, req.backupId.value)
    requires RollbackSpec(m, req, pre, Returned(reply), post, cleared)
    requires pre.marker == Required(req.backupId.value) && post.marker == Clear
    ensures if reply.status == Succeeded then Matches(post.world, pre.store[req.backupId.value].snapshot)
            else reply == Failure(req, RollbackFailed, req.backupId) && cleared.Some? && Equivalent(pre.world, post.world)
  {
    var target := pre.store[req.backupId.value].snapshot;
    var mods := Selected(m, target.moduleIds);
    SelectedIsHosted(m, pre.world, target.moduleIds);
    if reply.status != Succeeded {
      RestoredIsEquivalent(m, mods, pre.world, post.world);
    }
  }

  // ----- the synthetic engine -----

  predicate SucceededReply(reply: S.SyntheticReply) {
    reply.Committed?
  }

  ghost predicate TreeLaw(pre: S.SyntheticState, post: S.SyntheticState, reply: S.SyntheticReply, goal: S.Tree -> bool) {
    AllOrNothing(pre.tree, post.tree, post.marker, SucceededReply(reply), goal, (a: S.Tree, c: S.Tree) => a == c)
  }

  /** Every answer to an apply in this state obeys the law; exactness here means equal trees. */
  ghost predicate ApplyAlwaysObeys(mods: seq<S.SyntheticModule>, b: BackupId, pre: S.SyntheticState) {
    forall reply, post, unmarked :: S.ApplyTreeSpec(mods, b, pre, S.Answered(reply), post, unmarked)
      ==> TreeLaw(pre, post, reply, t => S.TreeDesired(t, mods))
  }

  /** An unlocked tree with two files to write, whose present files can be backed up under a free ID. */
  ghost predicate CanMix(goal: seq<S.TreeSnapshot>, b: BackupId, pre: S.SyntheticState) {
    var now := S.Snapshots(pre.tree, S.SnapshotPaths(goal));
    && pre.marker == Clear && b !in pre.records && S.Loadable(b, now) && S.AllSafe(now)
    && S.TwoDiffer(pre.tree, goal)
  }

  /** One answer obeys the law unless the compensation failed, the marker could not be written, and two
      files were to be written. */
  lemma {:induction false} SyntheticApplyObeys(mods: seq<S.SyntheticModule>, b: BackupId, pre: S.SyntheticState,
                                               reply: S.SyntheticReply, post: S.SyntheticState, unmarked: bool)
    requires S.ApplyTreeSpec(mods, b, pre, S.Answered(reply), post, unmarked)
    requires !(unmarked && CanMix(S.DesiredFiles(pre.tree, mods), b, pre))
    ensures TreeLaw(pre, post, reply, t => S.TreeDesired(t, mods))
  {
    var goal := S.DesiredFiles(pre.tree, mods);
    if unmarked && post.tree != pre.tree {
      S.OneChangeIsAtomic(pre.tree, post.tree, goal);
      MatchingIsDesired(pre.tree, post.tree, mods);
    }
  }

  lemma {:induction false} MatchingIsDesired(start: S.Tree, t: S.Tree, mods: seq<S.SyntheticModule>)
    requires S.TreeMatches(t, S.DesiredFiles(start, mods))
    ensures S.TreeDesired(t, mods)
  {
    forall i | 0 <= i < |mods| ensures mods[i].target in t && t[mods[i].target].content == mods[i].desired {
      assert S.Lookup(t, S.DesiredFiles(start, mods)[i].path) == Some(S.DesiredFile(start, mods[i]));
    }
  }

  /** One target of two was written, the compensation failed, and so did the marker. */
  lemma {:induction false} MixedApply(mods: seq<S.SyntheticModule>, b: BackupId, pre: S.SyntheticState, i: nat, j: nat)
    returns (post: S.SyntheticState)
    requires CanMix(S.DesiredFiles(pre.tree, mods), b, pre) && i < j < |mods|
    requires S.Differs(pre.tree, S.DesiredFiles(pre.tree, mods)[i]) && S.Differs(pre.tree, S.DesiredFiles(pre.tree, mods)[j])
    ensures S.ApplyTreeSpec(mods, b, pre, S.Answered(S.Broken(None)), post, true)
    ensures post.marker == Clear && post.tree != pre.tree && !S.TreeDesired(post.tree, mods)
  {
    var goal := S.DesiredFiles(pre.tree, mods);
    var now := S.Snapshots(pre.tree, S.SnapshotPaths(goal));
    post := S.SyntheticState(S.Placed(pre.tree, goal[i]), pre.records[b := S.Record.Whole(now)], Clear);
    S.OneOfTwoIsMixed(pre.tree, goal, i, j);
    assert goal[j].path == mods[j].target;
    assert S.BackupFirst(pre, post, goal, b);
  }

  /** Every answer to an apply obeys the law, unless two files are to be written on an unlocked tree. */
  lemma {:induction false} ApplyObeysIff(mods: seq<S.SyntheticModule>, b: BackupId, pre: S.SyntheticState)
    requires S.WithinManifest(mods)
    ensures ApplyAlwaysObeys(mods, b, pre) <==> !CanMix(S.DesiredFiles(pre.tree, mods), b, pre)
  {
    var goal := S.DesiredFiles(pre.tree, mods);
    if CanMix(goal, b, pre) {
      var i, j :| 0 <= i < j < |goal| && S.Differs(pre.tree, goal[i]) && S.Differs(pre.tree, goal[j]);
      var post := MixedApply(mods, b, pre, i, j);
      assert !TreeLaw(pre, post, S.Broken(None), t => S.TreeDesired(t, mods));
    } else {
      forall reply, post, unmarked | S.ApplyTreeSpec(mods, b, pre, S.Answered(reply), post, unmarked)
        ensures TreeLaw(pre, post, reply, t => S.TreeDesired(t, mods))
      {
        SyntheticApplyObeys(mods, b, pre, reply, post, unmarked);
      }
    }
  }

  /** Every answer to a rollback of `x` in this state obeys the law. */
  ghost predicate RollbackAlwaysObeys(mods: seq<S.SyntheticModule>, x: BackupId, r: BackupId, pre: S.SyntheticState)
    requires S.Eligible(pre.records, x)
  {
    forall reply, post, unmarked :: S.RollbackTreeSpec(mods, x, r, pre, S.Answered(reply), post, unmarked)
      ==> TreeLaw(pre, post, reply, t => S.TreeMatches(t, pre.records[x].files))
  }

  ghost predicate AllTargetsKnown(mods: seq<S.SyntheticModule>, files: seq<S.TreeSnapshot>) {
    forall i :: 0 <= i < |files| ==> files[i].path in S.TargetPaths(mods)
  }

  lemma {:induction false} SyntheticRollbackObeys(mods: seq<S.SyntheticModule>, x: BackupId, r: BackupId, pre: S.SyntheticState,
                                                  reply: S.SyntheticReply, post: S.SyntheticState, unmarked: bool)
    requires S.Eligible(pre.records, x)
    requires S.RollbackTreeSpec(mods, x, r, pre, S.Answered(reply), post, unmarked)
    requires !(unmarked && AllTargetsKnown(mods, pre.records[x].files) && CanMix(pre.records[x].files, r, pre))
    ensures TreeLaw(pre, post, reply, t => S.TreeMatches(t, pre.records[x].files))
  {
    if unmarked && pre.marker == Clear && post.tree != pre.tree {
      S.OneChangeIsAtomic(pre.tree, post.tree, pre.records[x].files);
    }
  }

  lemma {:induction false} MixedRollback(mods: seq<S.SyntheticModule>, x: BackupId, r: BackupId, pre: S.SyntheticState, i: nat, j: nat)
    returns (post: S.SyntheticState)
    requires S.Eligible(pre.records, x) && AllTargetsKnown(mods, pre.records[x].files)
    requires CanMix(pre.records[x].files, r, pre) && i < j < |pre.records[x].files|
    requires S.Differs(pre.tree, pre.records[x].files[i]) && S.Differs(pre.tree, pre.records[x].files[j])
    ensures S.RollbackTreeSpec(mods, x, r, pre, S.Answered(S.Broken(Some(x))), post, true)
    ensures post.marker == Clear && post.tree != pre.tree && !S.TreeMatches(post.tree, pre.records[x].files)
  {
    var goal := pre.records[x].files;
    var now := S.Snapshots(pre.tree, S.SnapshotPaths(goal));
    post := S.SyntheticState(S.Placed(pre.tree, goal[i]), pre.records[r := S.Record.Whole(now)], Clear);
    S.OneOfTwoIsMixed(pre.tree, goal, i, j);
    assert S.BackupFirst(pre, post, goal, r);
  }

  /** Every answer to a rollback obeys the law, unless its targets are known and two files are to be put
      back on an unlocked tree. */
  lemma {:induction false} RollbackObeysIff(mods: seq<S.SyntheticModule>, x: BackupId, r: BackupId, pre: S.SyntheticState)
    requires S.Eligible(pre.records, x)
    ensures RollbackAlwaysObeys(mods, x, r, pre)
            <==> !(AllTargetsKnown(mods, pre.records[x].files) && CanMix(pre.records[x].files, r, pre))
  {
    var goal := pre.records[x].files;
    if AllTargetsKnown(mods, goal) && CanMix(goal, r, pre) {
      var i, j :| 0 <= i < j < |goal| && S.Differs(pre.tree, goal[i]) && S.Differs(pre.tree, goal[j]);
      var post := MixedRollback(mods, x, r, pre, i, j);
      assert !TreeLaw(pre, post, S.Broken(Some(x)), t => S.TreeMatches(t, goal));
    } else {
      forall reply, post, unmarked | S.RollbackTreeSpec(mods, x, r, pre, S.Answered(reply), post, unmarked)
        ensures TreeLaw(pre, post, reply, t => S.TreeMatches(t, goal))
      {
        SyntheticRollbackObeys(mods, x, r, pre, reply, post, unmarked);
      }
    }
  }

  /** The synthetic engine never releases a marker before its backup is restored. */
  lemma SyntheticReleases(mods: seq<S.SyntheticModule>, x: BackupId, r: BackupId, pre: S.SyntheticState,
                          end: S.SyntheticEnd, post: S.SyntheticState, unmarked: bool)
    requires S.RollbackTreeSpec(mods, x, r, pre, end, post, unmarked)
    requires pre.marker != Clear && post.marker == Clear
    ensures pre.marker == Required(x) && S.Eligible(pre.records, x) && S.TreeMatches(post.tree, pre.records[x].files)
  {
  }

  // ----- any manifest with two modules -----

  lemma {:induction false} EscapedBound(s: string)
    ensures S.EscapedSize(s) <= 6 * |Utf8.Encode(s)|
    decreases |s|
  {
    if s != "" {
      EscapedBound(s[1..]);
    }
  }

  lemma {:induction false} AbsentEntries(files: seq<S.TreeSnapshot>)
    requires forall i :: 0 <= i < |files| ==> files[i].file.None? && |Utf8.Encode(files[i].path)| <= 256
    ensures S.EntriesSize(files) <= 1676 * |files|
    decreases |files|
  {
    if files != [] {
      EscapedBound(files[0].path);
      AbsentEntries(files[1..]);
    }
  }

  /** On an empty tree this befalls every selection of two or more modules with the manifest's limits and
      different targets. */
  lemma {:induction false} UnmarkedBreaksTheLaw(mods: seq<S.SyntheticModule>, b: BackupId)
    requires 2 <= |mods| <= 32 && S.WithinManifest(mods) && Unrepeated(S.TargetPaths(mods)) && |b| <= 45
    requires forall i :: 0 <= i < |mods| ==> |Utf8.Encode(mods[i].target)| <= 256
    ensures !ApplyAlwaysObeys(mods, b, S.SyntheticState(map[], map[], Clear))
  {
    var pre := S.SyntheticState(map[], map[], Clear);
    var goal := S.DesiredFiles(pre.tree, mods);
    AbsentEntries(S.Snapshots(pre.tree, S.SnapshotPaths(goal)));
    assert S.Differs(pre.tree, goal[0]) && S.Differs(pre.tree, goal[1]);
    ApplyObeysIff(mods, b, pre);
  }
}
