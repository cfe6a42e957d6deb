/** The synthetic engine's state: a private tree of files, its backups and its marker. */
module SyntheticModel {
  import opened Common
  import opened Json
  import opened TransactionModel

  /** A regular file. Paths that are not in the tree are absent. */
  datatype TreeFile = TreeFile(mode: nat, content: string)

  type Tree = map<Path, TreeFile>

  datatype TreeSnapshot = TreeSnapshot(path: Path, file: Option<TreeFile>)

  datatype Record = Whole(files: seq<TreeSnapshot>) | Torn

  type Records = map<BackupId, Record>

  datatype SyntheticState = SyntheticState(tree: Tree, records: Records, marker: Marker)

  datatype SyntheticModule = SyntheticModule(moduleId: string, target: Path, desired: string, canApply: bool)

  const MAX_TARGET_BYTES := 65536
  const MAX_DESIRED_BYTES := 4096

  /** What the tree hands out: within the size limit, permission bits only, not writable for others. */
  predicate IsSafe(file: Option<TreeFile>) {
    file.Some? ==>
      && |file.value.content| <= MAX_TARGET_BYTES && file.value.mode <= 0x1FF
      && (file.value.mode / 0x10) % 2 == 0 && (file.value.mode / 0x2) % 2 == 0
  }

  ghost predicate HasDigits(mode: nat, owner: nat, group: nat, others: nat) {
    owner <= 7 && group <= 7 && others <= 7 && mode == 64 * owner + 8 * group + others
  }

  lemma {:induction false} SixteenthOf(q: nat, r: nat)
    requires r < 16
    ensures (16 * q + r) / 16 == q
  {
  }

  lemma {:induction false} WriteBits(mode: nat, owner: nat, group: nat, others: nat)
    requires HasDigits(mode, owner, group, others)
    ensures (mode / 0x10) % 2 == 0 <==> group in {0, 1, 4, 5}
    ensures (mode / 0x2) % 2 == 0 <==> others in {0, 1, 4, 5}
  {
    SixteenthOf(4 * owner + group / 2, 8 * (group % 2) + others);
    assert mode == 16 * (4 * owner + group / 2) + (8 * (group % 2) + others);
    assert mode / 0x2 == 32 * owner + 4 * group + others / 2;
  }

  lemma {:induction false} DigitsOf(mode: nat) returns (owner: nat, group: nat, others: nat)
    requires mode <= 0x1FF
    ensures HasDigits(mode, owner, group, others)
  {
    owner, group, others := mode / 64, mode % 64 / 8, mode % 8;
    assert mode % 64 == 8 * group + mode % 64 % 8;
  }

  /** In octal digits: the owner may have anything, group and others anything but writing. */
  lemma {:induction false} SafeIff(file: TreeFile)
    ensures IsSafe(Some(file)) <==>
              && |file.content| <= 65536
              && exists owner: nat, group: nat, others: nat :: HasDigits(file.mode, owner, group, others)
                   && group in {0, 1, 4, 5} && others in {0, 1, 4, 5}
  {
    if file.mode <= 0x1FF {
      var owner, group, others := DigitsOf(file.mode);
      WriteBits(file.mode, owner, group, others);
    }
    forall owner: nat, group: nat, others: nat | HasDigits(file.mode, owner, group, others)
      ensures (file.mode / 0x10) % 2 == 0 <==> group in {0, 1, 4, 5}
      ensures (file.mode / 0x2) % 2 == 0 <==> others in {0, 1, 4, 5}
    {
      WriteBits(file.mode, owner, group, others);
    }
  }

  predicate AllSafe(files: seq<TreeSnapshot>) {
    forall i :: 0 <= i < |files| ==> IsSafe(files[i].file)
  }

  /** The manifest limits what it may want. */
  predicate WithinManifest(modules: seq<SyntheticModule>) {
    forall i :: 0 <= i < |modules| ==> |modules[i].desired| <= MAX_DESIRED_BYTES
  }

  function Lookup(tree: Tree, path: Path): Option<TreeFile> {
    if path in tree then Some(tree[path]) else None
  }

  /** The tree with one snapshot put back. */
  function Placed(tree: Tree, snap: TreeSnapshot): Tree {
    if snap.file.Some? then tree[snap.path := snap.file.value] else tree - {snap.path}
  }

  function TargetPaths(modules: seq<SyntheticModule>): (ps: seq<Path>)
    ensures |ps| == |modules| && forall i :: 0 <= i < |ps| ==> ps[i] == modules[i].target
  {
    seq(|modules|, i requires 0 <= i < |modules| => modules[i].target)
  }

  function SnapshotPaths(files: seq<TreeSnapshot>): (ps: seq<Path>)
    ensures |ps| == |files| && forall i :: 0 <= i < |ps| ==> ps[i] == files[i].path
  {
    seq(|files|, i requires 0 <= i < |files| => files[i].path)
  }

  /** The snapshots of the given paths. */
  function Snapshots(tree: Tree, paths: seq<Path>): (files: seq<TreeSnapshot>)
    ensures |files| == |paths| && SnapshotPaths(files) == paths
  {
    seq(|paths|, i requires 0 <= i < |paths| => TreeSnapshot(paths[i], Lookup(tree, paths[i])))
  }

  /** Bytes of a character inside ASCII JSON text; characters outside ASCII are escaped, in pairs if need be. */
  function EscapedSize(s: string): nat {
    if s == "" then 0
    else
      (if s[0] in {'"', '\\', '\U{8}', '\U{C}', '\n', '\r', '\t'} then 2
       else if ' ' <= s[0] <= '~' then 1
       else if s[0] < '\U{10000}' then 6
       else 12) + EscapedSize(s[1..])
  }

  function DecimalSize(n: nat): nat {
    if n < 10 then 1 else 1 + DecimalSize(n / 10)
  }

  /** Bytes of one file's entry in a record, with its content in base64 and its digest. */
  function EntrySize(snap: TreeSnapshot): nat {
    130 + EscapedSize(snap.path)
    + if snap.file.Some? then (|snap.file.value.content| + 2) / 3 * 4 + DecimalSize(snap.file.value.mode) + 4 else 9
  }

  /** Bytes of the entries with the commas between them. */
  function EntriesSize(files: seq<TreeSnapshot>): nat {
    if files == [] then 0 else EntrySize(files[0]) + (if |files| > 1 then 1 else 0) + EntriesSize(files[1..])
  }

  function RecordSize(id: BackupId, files: seq<TreeSnapshot>): nat {
    39 + |id| + EntriesSize(files)
  }

  /** What the constructor of a snapshot accepts. */
  predicate ValidSnapshot(snap: TreeSnapshot) {
    snap.file.Some? ==> |snap.file.value.content| <= MAX_TARGET_BYTES && snap.file.value.mode <= 0x1FF
  }

  /** What `load` accepts: one to 32 valid snapshots of different targets in a record within the size limit. */
  predicate Loadable(id: BackupId, files: seq<TreeSnapshot>) {
    && 1 <= |files| <= 32 && Unrepeated(SnapshotPaths(files))
    && (forall i :: 0 <= i < |files| ==> ValidSnapshot(files[i]))
    && RecordSize(id, files) <= MAX_TARGET_BYTES
  }

  predicate Eligible(records: Records, id: BackupId) {
    id in records && records[id].Whole? && Loadable(id, records[id].files)
  }

  ghost predicate SameElsewhere(a: Tree, b: Tree, paths: seq<Path>) {
    forall p :: p !in paths ==> Lookup(a, p) == Lookup(b, p)
  }

  ghost predicate TreeMatches(tree: Tree, files: seq<TreeSnapshot>) {
    forall i :: 0 <= i < |files| ==> Lookup(tree, files[i].path) == files[i].file
  }

  /** Every target is present with the desired content. */
  ghost predicate TreeDesired(tree: Tree, modules: seq<SyntheticModule>) {
    forall i :: 0 <= i < |modules| ==>
      modules[i].target in tree && tree[modules[i].target].content == modules[i].desired
  }

  /** What an apply writes: a file that was there keeps its mode, and a new one is private to its owner. */
  function DesiredFile(tree: Tree, mod: SyntheticModule): TreeFile {
    TreeFile(if mod.target in tree then tree[mod.target].mode else 0x180, mod.desired)
  }

  function DesiredFiles(tree: Tree, modules: seq<SyntheticModule>): (files: seq<TreeSnapshot>)
    ensures |files| == |modules| && SnapshotPaths(files) == TargetPaths(modules)
  {
    seq(|modules|, i requires 0 <= i < |modules| => TreeSnapshot(modules[i].target, Some(DesiredFile(tree, modules[i]))))
  }

  ghost predicate IsOneOf(files: seq<TreeSnapshot>, path: Path, file: Option<TreeFile>) {
    exists i :: 0 <= i < |files| && files[i] == TreeSnapshot(path, file)
  }

  /** Every file is as before or as one of the given snapshots has it. */
  ghost predicate PartlyPlaced(before: Tree, after: Tree, files: seq<TreeSnapshot>) {
    forall p :: Lookup(after, p) == Lookup(before, p) || IsOneOf(files, p, Lookup(after, p))
  }

  lemma {:induction false} PlacedOne(start: Tree, before: Tree, after: Tree, files: seq<TreeSnapshot>, i: nat)
    requires i < |files| && PartlyPlaced(start, before, files)
    requires after == before || after == Placed(before, files[i])
    ensures PartlyPlaced(start, after, files)
    ensures forall p :: p != files[i].path ==> Lookup(after, p) == Lookup(before, p)
  {
    forall p | Lookup(after, p) != Lookup(start, p) ensures IsOneOf(files, p, Lookup(after, p)) {
      if Lookup(after, p) != Lookup(before, p) {
        assert files[i] == TreeSnapshot(p, Lookup(after, p));
      } else {
        assert Lookup(before, p) == Lookup(start, p) || IsOneOf(files, p, Lookup(before, p));
      }
    }
  }

  lemma {:induction false} ElsewhereSame(before: Tree, after: Tree, files: seq<TreeSnapshot>)
    requires PartlyPlaced(before, after, files)
    ensures SameElsewhere(before, after, SnapshotPaths(files))
  {
    forall p | Lookup(after, p) != Lookup(before, p) ensures p in SnapshotPaths(files) {
      var i :| 0 <= i < |files| && files[i] == TreeSnapshot(p, Lookup(after, p));
      assert SnapshotPaths(files)[i] == p;
    }
  }

  /** Putting snapshots of the start back, as far as it goes, leaves nothing but old and placed files. */
  lemma {:induction false} PartlyUndone(before: Tree, between: Tree, after: Tree, files: seq<TreeSnapshot>, paths: seq<Path>)
    requires PartlyPlaced(before, between, files) && PartlyPlaced(between, after, Snapshots(before, paths))
    ensures PartlyPlaced(before, after, files)
  {
    forall p | Lookup(after, p) != Lookup(before, p) ensures IsOneOf(files, p, Lookup(after, p)) {
      assert Lookup(after, p) == Lookup(between, p) || IsOneOf(Snapshots(before, paths), p, Lookup(after, p));
    }
  }

  ghost predicate Differs(tree: Tree, snap: TreeSnapshot) {
    Lookup(tree, snap.path) != snap.file
  }

  /** At least two of the files are not yet as the snapshots have them. */
  ghost predicate TwoDiffer(tree: Tree, files: seq<TreeSnapshot>) {
    exists i, j :: 0 <= i < j < |files| && Differs(tree, files[i]) && Differs(tree, files[j])
  }

  lemma {:induction false} WhatChanged(before: Tree, after: Tree, files: seq<TreeSnapshot>) returns (k: nat)
    requires PartlyPlaced(before, after, files) && after != before
    ensures k < |files| && Differs(before, files[k]) && !Differs(after, files[k])
  {
    if p :| Lookup(after, p) != Lookup(before, p) {
      k :| k < |files| && files[k] == TreeSnapshot(p, Lookup(after, p));
    } else {
      EqualTrees(before, after);
    }
  }

  lemma {:induction false} StaysInPlace(before: Tree, after: Tree, files: seq<TreeSnapshot>, i: nat)
    requires PartlyPlaced(before, after, files) && Unrepeated(SnapshotPaths(files)) && i < |files|
    ensures Differs(after, files[i]) ==> Differs(before, files[i])
  {
    var p := files[i].path;
    if Lookup(after, p) != Lookup(before, p) {
      var k :| 0 <= k < |files| && files[k] == TreeSnapshot(p, Lookup(after, p));
      assert SnapshotPaths(files)[i] == SnapshotPaths(files)[k];
    }
  }

  /** With at most one file to change, partly is all or nothing. */
  lemma {:induction false} OneChangeIsAtomic(before: Tree, after: Tree, files: seq<TreeSnapshot>)
    requires PartlyPlaced(before, after, files) && Unrepeated(SnapshotPaths(files)) && !TwoDiffer(before, files)
    ensures after == before || TreeMatches(after, files)
  {
    if after != before {
      var k := WhatChanged(before, after, files);
      forall i | 0 <= i < |files| ensures Lookup(after, files[i].path) == files[i].file {
        assert i == k || !Differs(before, files[i]);
        StaysInPlace(before, after, files, i);
      }
    }
  }

  /** With two files to change, placing one of them is neither all nor nothing. */
  lemma {:induction false} OneOfTwoIsMixed(before: Tree, files: seq<TreeSnapshot>, i: nat, j: nat)
    requires i < j < |files| && Unrepeated(SnapshotPaths(files)) && Differs(before, files[i]) && Differs(before, files[j])
    ensures PartlyPlaced(before, Placed(before, files[i]), files)
    ensures Placed(before, files[i]) != before && Lookup(Placed(before, files[i]), files[j].path) == Lookup(before, files[j].path)
  {
    assert SnapshotPaths(files)[i] != SnapshotPaths(files)[j];
    PlacedOne(before, before, Placed(before, files[i]), files, i);
    assert Lookup(Placed(before, files[i]), files[i].path) == files[i].file;
  }

  lemma EqualTrees(a: Tree, b: Tree)
    requires forall p :: Lookup(a, p) == Lookup(b, p)
    ensures a == b
  {
    forall p ensures p in a <==> p in b {
      assert Lookup(a, p) == Lookup(b, p);
    }
    forall p | p in a ensures a[p] == b[p] {
      assert Lookup(a, p) == Lookup(b, p);
    }
  }

  /** Restoring the snapshots of a tree after changes to their paths gives back exactly that tree. */
  lemma RestoredIsSame(before: Tree, after: Tree, paths: seq<Path>)
    requires SameElsewhere(before, after, paths) && TreeMatches(after, Snapshots(before, paths))
    ensures before == after
  {
    forall p ensures Lookup(before, p) == Lookup(after, p) {
      if p in paths {
        var i :| 0 <= i < |paths| && paths[i] == p;
        assert Snapshots(before, paths)[i].path == p;
      }
    }
    EqualTrees(before, after);
  }

  // ----- what one request may do -----

  /** The result of a request: succeeded, stopped, recovery required, or failed, with the backup it names. */
  datatype SyntheticReply =
    | Committed(id: BackupId)
    | Halted(timedOut: bool, backup: Option<BackupId>)
    | RecoveryNeeded(id: BackupId)
    | Broken(backup: Option<BackupId>)

  datatype SyntheticEnd = Answered(reply: SyntheticReply) | Perished

  ghost predicate RecordStep(pre: Records, id: BackupId, files: seq<TreeSnapshot>, post: Records) {
    post == pre || (id !in pre && (post == pre[id := Record.Torn] || post == pre[id := Record.Whole(files)]))
  }

  /** The backup of `files` was created under this ID, and it loads. */
  ghost predicate Kept(pre: Records, id: BackupId, files: seq<TreeSnapshot>, post: Records) {
    id !in pre && post == pre[id := Record.Whole(files)] && Loadable(id, files) && AllSafe(files)
  }

  /** What holds however a transaction towards the files of `goal` with backup `id` ends. */
  ghost predicate BackupFirst(pre: SyntheticState, post: SyntheticState, goal: seq<TreeSnapshot>, id: BackupId) {
    var files := Snapshots(pre.tree, SnapshotPaths(goal));
    && PartlyPlaced(pre.tree, post.tree, goal)
    && RecordStep(pre.records, id, files, post.records)
    && (post.tree != pre.tree ==> Kept(pre.records, id, files, post.records))
  }

  /** `_apply` with no marker set. `unmarked` tells that the compensation failed and the marker's write raised. */
  ghost predicate TreeApplied(modules: seq<SyntheticModule>, b: BackupId, pre: SyntheticState, end: SyntheticEnd,
                              post: SyntheticState, unmarked: bool)
  {
    && BackupFirst(pre, post, DesiredFiles(pre.tree, modules), b)
    && (post.marker != Clear ==> post.marker in {Damaged, Required(b)} && Eligible(post.records, b))
    && (unmarked ==> end == Answered(Broken(None)) && Eligible(post.records, b))
    && match end
       case Answered(Committed(id)) =>
         && id == b && TreeDesired(post.tree, modules)
         && post.marker == Clear && Eligible(post.records, b)
       case Answered(Halted(_, backup)) => post.tree == pre.tree && post.marker == Clear && backup in {None, Some(b)}
       case Answered(RecoveryNeeded(id)) => id == b && post.marker == Required(b)
       case Answered(Broken(backup)) => (post.tree == pre.tree && post.marker == Clear && backup in {None, Some(b)}) || unmarked
       case Perished => true
  }

  ghost predicate ApplyTreeSpec(modules: seq<SyntheticModule>, b: BackupId, pre: SyntheticState, end: SyntheticEnd,
                                post: SyntheticState, unmarked: bool)
  {
    if pre.marker != Clear then
      post == pre && !unmarked
      && match end
         case Answered(reply) => reply == Broken(None) || (pre.marker.Required? && reply == RecoveryNeeded(pre.marker.id))
         case Perished => true
    else
      (post == pre && !unmarked && (end == Answered(Broken(None)) || end == Perished))
      || TreeApplied(modules, b, pre, end, post, unmarked)
  }

  // ----- targets too big for a backup -----

  lemma {:induction false} OneEntryIsInside(files: seq<TreeSnapshot>, i: nat)
    requires i < |files|
    ensures EntriesSize(files) >= EntrySize(files[i])
    decreases |files|
  {
    if i > 0 {
      OneEntryIsInside(files[1..], i - 1);
    }
  }

  /** Base64 makes four bytes of three, so the record of a file that is itself within the limit may not be. */
  lemma {:induction false} BigFileDoesNotLoad(id: BackupId, files: seq<TreeSnapshot>, i: nat)
    requires i < |files| && files[i].file.Some? && |files[i].file.value.content| >= 49150
    ensures !Loadable(id, files)
  {
    OneEntryIsInside(files, i);
  }

  /** A target of 49150 bytes or more is accepted up to 65536, but an apply with a fresh ID never changes it, or
      any other, and never succeeds: its backup cannot be loaded. */
  lemma {:induction false} BigTargetIsNeverChanged(modules: seq<SyntheticModule>, b: BackupId, i: nat, pre: SyntheticState,
                                                   end: SyntheticEnd, post: SyntheticState, unmarked: bool)
    requires ApplyTreeSpec(modules, b, pre, end, post, unmarked) && b !in pre.records
    requires i < |modules| && modules[i].target in pre.tree && |pre.tree[modules[i].target].content| >= 49150
    ensures post.tree == pre.tree && post.marker == pre.marker
    ensures end.Answered? ==> !end.reply.Committed?
  {
    var files := Snapshots(pre.tree, SnapshotPaths(DesiredFiles(pre.tree, modules)));
    assert files[i].path == modules[i].target && files[i].file == Some(pre.tree[modules[i].target]);
    BigFileDoesNotLoad(b, files, i);
  }

  /** `_rollback` of the backup `x` whose snapshots are `target`, with the clearing of the marker. */
  ghost predicate TreeRolledBack(target: seq<TreeSnapshot>, x: BackupId, r: BackupId, pre: SyntheticState,
                                 end: SyntheticEnd, post: SyntheticState, unmarked: bool)
  {
    && BackupFirst(pre, post, target, r)
    && (pre.marker == Required(x) ==> post.marker == Required(x) || (post.marker == Clear && TreeMatches(post.tree, target)))
    && (pre.marker == Clear ==> post.marker in {Clear, Damaged, Required(r)})
    && (pre.marker == Clear && post.marker != Clear ==> Eligible(post.records, r))
    && (unmarked ==> end == Answered(Broken(Some(x))) && Eligible(post.records, r))
    && match end
       case Answered(Committed(id)) => id == x && TreeMatches(post.tree, target) && post.marker == Clear && Eligible(post.records, r)
       case Answered(Halted(_, backup)) => post.tree == pre.tree && post.marker == pre.marker && backup == Some(x)
       case Answered(RecoveryNeeded(id)) =>
         id == r && Eligible(post.records, r) && post.marker == if pre.marker == Clear then Required(r) else pre.marker
       case Answered(Broken(backup)) =>
         && backup == Some(x)
         && (|| (post.tree == pre.tree && post.marker == pre.marker)
             || (pre.marker == Required(x) && TreeMatches(post.tree, target))
             || unmarked)
       case Perished => true
  }

  ghost predicate RollbackTreeSpec(modules: seq<SyntheticModule>, x: BackupId, r: BackupId, pre: SyntheticState,
                                   end: SyntheticEnd, post: SyntheticState, unmarked: bool)
  {
    if pre.marker == Damaged || (pre.marker.Required? && pre.marker.id != x) then
      post == pre && !unmarked
      && match end
         case Answered(reply) => reply == Broken(Some(x)) || (pre.marker.Required? && reply == RecoveryNeeded(pre.marker.id))
         case Perished => true
    else
      || (post == pre && !unmarked && (end == Answered(Broken(Some(x))) || end == Perished))
      || (Eligible(pre.records, x)
          && (forall i :: 0 <= i < |pre.records[x].files| ==> pre.records[x].files[i].path in TargetPaths(modules))
          && TreeRolledBack(pre.records[x].files, x, r, pre, end, post, unmarked))
  }
}
