/**
 The agent's deploy tree (cmd/agent/safety.go and handler.go): writing an artifact,
 snapshotting into .previous/{release}, and restoring from there.

 A tree maps the paths below the deploy directory, as component sequences, to files
 and directories.  A release id is one path component.  Modes are not modelled.
 */
module AgentSnapshot {
  import opened Wrappers
  import opened Collections

  type Path = seq<string>
  datatype Node = File(contents: seq<int>) | Dir
  type Tree = map<Path, Node>

  const PREVIOUS := ".previous"

  /** The path of `.previous` or below it. */
  predicate InPrevious(p: Path) {
    p != [] && p[0] == PREVIOUS
  }

  function SnapshotDir(id: string): Path {
    [PREVIOUS, id]
  }

  function Parent(p: Path): Path
    requires p != []
  {
    p[..|p| - 1]
  }

  predicate Hangs(t: Tree, p: Path) {
    p != [] ==> Parent(p) in t && t[Parent(p)].Dir?
  }

  /** Every node but the root hangs in a directory. */
  predicate IsTree(t: Tree) {
    [] in t && t[[]].Dir? && forall p {:trigger Hangs(t, p)} :: p in t ==> Hangs(t, p)
  }

  /** No snapshot contains a `.previous` of its own. */
  predicate NoNesting(t: Tree) {
    forall p :: p in t && InPrevious(p) && |p| >= 3 ==> p[2] != PREVIOUS
  }

  // ── Copying a subtree ──────────────────────────────────────────────────────

  /** The entry exists, and sources and targets lie on different sides of `.previous`. */
  predicate IsEntry(t: Tree, src: Path, dst: Path, r: Path) {
    src + r in t && InPrevious(src + r) == InPrevious(src) && InPrevious(dst + r) != InPrevious(src)
  }

  predicate AllEntries(t: Tree, src: Path, dst: Path, order: seq<Path>) {
    forall i :: 0 <= i < |order| ==> IsEntry(t, src, dst, order[i])
  }

  /** The tree after copying `src + r` to `dst + r` for every listed r in turn. */
  function Copied(t: Tree, src: Path, dst: Path, order: seq<Path>): Tree
    requires AllEntries(t, src, dst, order)
  {
    if order == [] then t
    else
      var n := |order| - 1;
      assert IsEntry(t, src, dst, order[n]);
      Copied(t, src, dst, order[..n])[dst + order[n] := t[src + order[n]]]
  }

  lemma {:induction false} CopiedAt(t: Tree, src: Path, dst: Path, order: seq<Path>, r: Path)
    requires AllEntries(t, src, dst, order) && r in order
    ensures IsEntry(t, src, dst, r)
    ensures dst + r in Copied(t, src, dst, order) && Copied(t, src, dst, order)[dst + r] == t[src + r]
  {
    var n := |order| - 1;
    assert (dst + r)[|dst|..] == r && (dst + order[n])[|dst|..] == order[n];
    if r != order[n] {
      CopiedAt(t, src, dst, order[..n], r);
    }
  }

  lemma {:induction false} CopiedElsewhere(t: Tree, src: Path, dst: Path, order: seq<Path>, p: Path)
    requires AllEntries(t, src, dst, order)
    requires dst <= p ==> p[|dst|..] !in order
    ensures p in Copied(t, src, dst, order) <==> p in t
    ensures p in t ==> Copied(t, src, dst, order)[p] == t[p]
  {
    if order != [] {
      var n := |order| - 1;
      assert dst <= dst + order[n] && (dst + order[n])[|dst|..] == order[n];
      CopiedElsewhere(t, src, dst, order[..n], p);
    }
  }

  /** Nothing on the source's side of `.previous` changes. */
  lemma CopiedKeepsSource(t: Tree, src: Path, dst: Path, order: seq<Path>, p: Path)
    requires AllEntries(t, src, dst, order) && InPrevious(p) == InPrevious(src)
    ensures p in Copied(t, src, dst, order) <==> p in t
    ensures p in t ==> Copied(t, src, dst, order)[p] == t[p]
  {
    assert dst <= p ==> dst + p[|dst|..] == p;
    if dst <= p && p[|dst|..] in order {
      CopiedAt(t, src, dst, order, p[|dst|..]);
    }
    CopiedElsewhere(t, src, dst, order, p);
  }

  lemma CopyKeepsSide(t: Tree, src: Path, dst: Path, order: seq<Path>)
    requires AllEntries(t, src, dst, order)
    ensures SameSide(t, Copied(t, src, dst, order), InPrevious(src))
    ensures OnlyCopied(t, Copied(t, src, dst, order), dst, order)
  {
    forall p | InPrevious(p) == InPrevious(src)
      ensures SameAt(t, Copied(t, src, dst, order), p)
    {
      CopiedKeepsSource(t, src, dst, order, p);
    }
    forall p | !(dst <= p && p[|dst|..] in order)
      ensures SameAt(t, Copied(t, src, dst, order), p)
    {
      CopiedElsewhere(t, src, dst, order, p);
    }
  }

  /** A file would land on a directory or a directory on a file. */
  predicate Clash(t: Tree, src: Path, dst: Path, r: Path) {
    src + r in t && dst + r in t && t[dst + r].Dir? != t[src + r].Dir?
  }

  predicate NoClash(t: Tree, src: Path, dst: Path, order: seq<Path>) {
    forall i :: 0 <= i < |order| ==> !Clash(t, src, dst, order[i])
  }

  /** Every directory comes before what it holds. */
  predicate ParentsFirst(order: seq<Path>) {
    forall i {:trigger ParentBefore(order, i)} :: 0 <= i < |order| ==> ParentBefore(order, i)
  }

  predicate ParentBefore(order: seq<Path>, i: nat)
    requires i < |order|
  {
    order[i] != [] ==> Parent(order[i]) in order[..i]
  }

  /** os.MkdirAll: fails on a file in the way, otherwise makes every missing directory. */
  function MkdirAll(t: Tree, p: Path): Option<Tree> {
    if exists k :: 0 <= k <= |p| && p[..k] in t && t[p[..k]].File? then None
    else
      var made := set k | 0 <= k <= |p| :: p[..k];
      Some(map q | q in t.Keys + made :: if q in t then t[q] else Dir)
  }

  lemma {:induction false} PrefixesAreDirs(t: Tree, p: Path, k: nat)
    requires IsTree(t) && p in t && t[p].Dir? && k <= |p|
    ensures p[..k] in t && t[p[..k]].Dir?
    decreases |p| - k
  {
    if k < |p| {
      PrefixesAreDirs(t, p, k + 1);
      assert Hangs(t, p[..k + 1]);
      assert Parent(p[..k + 1]) == p[..k];
    } else {
      assert p[..k] == p;
    }
  }

  /** With its parent in place, making a directory adds that one node. */
  lemma MkdirBelow(t: Tree, p: Path)
    requires IsTree(t) && (p == [] || (Parent(p) in t && t[Parent(p)].Dir?))
    ensures MkdirAll(t, p) == if p in t && t[p].File? then None else Some(t[p := Dir])
  {
    assert p[..|p|] == p;
    forall k | 0 <= k < |p|
      ensures p[..k] in t && t[p[..k]].Dir?
    {
      PrefixesAreDirs(t, Parent(p), k);
      assert Parent(p)[..k] == p[..k];
    }
    if !(p in t && t[p].File?) {
      var made := set k | 0 <= k <= |p| :: p[..k];
      assert p in made;
      assert MkdirAll(t, p).value == t[p := Dir];
    }
  }

  datatype FsError = NotADirectory | IsADirectory | SnapshotNotFound

  class Agent {
    var tree: Tree

    /** os.Open, os.Create and io.Copy. */
    method CopyFile(src: Path, dst: Path) returns (r: Result<(), FsError>)
      requires src in tree && tree[src].File? && dst != []
      modifies this
      ensures r.Ok? <==> Parent(dst) in old(tree) && old(tree)[Parent(dst)].Dir? && !(dst in old(tree) && old(tree)[dst].Dir?)
      ensures tree == if r.Ok? then old(tree)[dst := old(tree)[src]] else old(tree)
    {
      if Parent(dst) !in tree || !tree[Parent(dst)].Dir? {
        return Err(NotADirectory);
      }
      if dst in tree && tree[dst].Dir? {
        return Err(IsADirectory);
      }
      tree := tree[dst := tree[src]];
      return Ok(());
    }

    /** One walk callback: make the directory or copy the file. */
    method CopyEntry(src: Path, dst: Path) returns (r: Result<(), FsError>)
      requires IsTree(tree) && src in tree
      requires dst == [] ==> tree[src].Dir?
      requires dst != [] ==> Parent(dst) in tree && tree[Parent(dst)].Dir?
      modifies this
      ensures IsTree(tree)
      ensures r.Ok? <==> !(dst in old(tree) && old(tree)[dst].Dir? != old(tree)[src].Dir?)
      ensures tree == if r.Ok? then old(tree)[dst := old(tree)[src]] else old(tree)
    {
      ghost var was := tree;
      if tree[src].Dir? {
        MkdirBelow(tree, dst);
        var made := MkdirAll(tree, dst);
        if made.None? {
          return Err(NotADirectory);
        }
        AddDirKeepsTree(tree, dst);
        tree := made.value;
        r := Ok(());
      } else {
        r := CopyFile(src, dst);
        if r.Ok? {
          AddFileKeepsTree(was, dst, was[src]);
        }
      }
    }

    /** The walk both directions share.  Nothing is deleted and no node changes its kind.  When sources and targets lie
        on different sides of `.previous` it fails exactly on the first clash, even then with the source side intact. */
    method CopyWalk(src: Path, dst: Path, order: seq<Path>) returns (r: Result<(), FsError>)
      requires IsTree(tree) && ParentsFirst(order) && forall i :: 0 <= i < |order| ==> src + order[i] in tree
      requires dst in tree && tree[dst].Dir? && src in tree && tree[src].Dir?
      modifies this
      ensures IsTree(tree) && SameKinds(old(tree), tree)
      ensures AllEntries(old(tree), src, dst, order) ==>
                && (r.Ok? <==> NoClash(old(tree), src, dst, order))
                && (r.Ok? ==> tree == Copied(old(tree), src, dst, order))
                && SameSide(old(tree), tree, InPrevious(src)) && OnlyCopied(old(tree), tree, dst, order)
    {
      ghost var t := tree;
      for i := 0 to |order|
        invariant IsTree(tree) && SameKinds(t, tree) && Reached(t, tree, src, dst, order[..i])
        invariant AllEntries(t, src, dst, order) ==>
                    tree == Copied(t, src, dst, order[..i]) && NoClash(t, src, dst, order[..i])
      {
        var rel := order[i];
        ParentReached(t, tree, src, dst, order, i);
        if AllEntries(t, src, dst, order) {
          EntryStep(t, src, dst, order, i);
        }
        ghost var before := tree;
        r := CopyEntry(src + rel, dst + rel);
        assert order[..i + 1] == order[..i] + [rel];
        if r.Err? {
          if AllEntries(t, src, dst, order) {
            assert Clash(t, src, dst, order[i]);
            SideAfter(t, src, dst, order, i);
          }
          return;
        }
        ReachedSnoc(t, before, tree, src, dst, order[..i], rel);
      }
      assert order[..|order|] == order;
      if AllEntries(t, src, dst, order) {
        CopyKeepsSide(t, src, dst, order);
      }
      return Ok(());
    }

    /** Writes one file of the artifact, making the directories above it; the deploy directory itself is no file. */
    method WriteFile(dest: Path, contents: seq<int>) returns (r: Result<(), FsError>)
      requires IsTree(tree)
      modifies this
      ensures IsTree(tree)
      ensures forall p :: p in old(tree) ==> p in tree && (p != dest ==> tree[p] == old(tree)[p])
      ensures forall p :: p in tree && p !in old(tree) ==> p <= dest && (p != dest ==> tree[p].Dir?)
      ensures r.Ok? <==> CanWrite(old(tree), dest)
      ensures r.Ok? ==> tree.Keys == old(tree).Keys + PathTo(dest) && dest in tree && tree[dest] == File(contents)
      ensures r.Err? ==> tree == old(tree)
    {
      if dest == [] {
        return Err(IsADirectory);
      }
      MkdirFacts(tree, Parent(dest));
      WriteNeedsDirs(tree, dest);
      var made := MkdirAll(tree, Parent(dest));
      if made.None? {
        return Err(NotADirectory);
      }
      tree := made.value;
      if dest in tree && tree[dest].Dir? {
        return Err(IsADirectory);
      }
      AddFileKeepsTree(tree, dest, File(contents));
      tree := tree[dest := File(contents)];
      return Ok(());
    }

    /** Writes file number k if it is routed to the deploy tree. */
    method WriteNext(files: seq<ManifestFile>, k: nat, ghost t: Tree) returns (r: Result<(), FsError>)
      requires k < |files| && IsTree(tree) && WrittenSoFar(t, tree, files, k)
      modifies this
      ensures IsTree(tree)
      ensures r.Ok? <==> FilesFit(t, Aims(files[..k + 1]))
      ensures r.Ok? ==> WrittenSoFar(t, tree, files, k + 1) && Placed(tree, files[k])
      ensures NothingDeleted(t, tree) && OnlyWrites(t, tree, files)
      ensures forall p :: p in old(tree) ==> p in tree && (Destination(files[k].path) != Some(p) ==> tree[p] == old(tree)[p])
    {
      var dest := Destination(files[k].path);
      AimsSnoc(files, k);
      if dest.None? {
        assert Aims(files[..k + 1]) == Aims(files[..k]);
        return Ok(());
      }
      ghost var before := tree;
      r := WriteFile(dest.value, files[k].contents);
      WriteIsAWrite(t, before, tree, files, k);
      FitsExactly(t, before, Aims(files[..k]), dest.value);
      if r.Ok? {
        assert dest.value in Aims(files[..k + 1]);
        AfterStep(t, before, tree, Aims(files[..k]), dest.value);
      }
    }

    /** Files routed to the deploy tree; the last file for a destination stays, and nothing is ever deleted.  It fails
        exactly when some file cannot be written or is to lie below another. */
    method WriteArtifactFiles(files: seq<ManifestFile>) returns (r: Result<(), FsError>)
      requires IsTree(tree)
      modifies this
      ensures IsTree(tree) && NothingDeleted(old(tree), tree) && OnlyWrites(old(tree), tree, files)
      ensures r.Ok? ==> forall i :: 0 <= i < |files| && LastFor(files, i) ==> Placed(tree, files[i])
      ensures r.Ok? <==> FilesFit(old(tree), Aims(files))
    {
      assert Aims(files[..0]) == {};
      for k := 0 to |files|
        invariant IsTree(tree) && WrittenSoFar(old(tree), tree, files, k)
        invariant PlacedSoFar(tree, files, k)
      {
        ghost var before := tree;
        AimsSnoc(files, k);
        r := WriteNext(files, k, old(tree));
        if r.Err? {
          return;
        }
        PlacedSnoc(before, tree, files, k);
      }
      assert files[..|files|] == files;
      return Ok(());
    }

    /** The phases of a deploy in the order the agent runs them: the files are written before the snapshot is
        taken, and a failed snapshot does not fail the deploy.  `verified` covers download, checksum and signature,
        `nginxOk` the configuration test, `afterOk` reload and local check.  `written` is the tree after writing. */
    method HandleTask(id: string, files: seq<ManifestFile>, verified: bool, nginxOk: bool, afterOk: bool)
      returns (succeeded: bool, snapshotTaken: bool, ghost written: Tree)
      requires IsTree(tree)
      modifies this
      ensures IsTree(tree) && NothingDeleted(old(tree), written) && OnlyWrites(old(tree), written, files)
      ensures SameLive(written, tree) && (Outside(files) ==> SamePrevious(old(tree), written))
      ensures !verified ==> tree == old(tree)
      ensures snapshotTaken ==> IsSnapshot(written, tree, id)
      ensures succeeded ==> forall i :: 0 <= i < |files| && LastFor(files, i) ==> Placed(written, files[i])
      ensures succeeded <==> verified && FilesFit(old(tree), Aims(files)) && nginxOk && afterOk
      ensures snapshotTaken <==> verified && FilesFit(old(tree), Aims(files)) && nginxOk && SnapshotFits(written, id)
    {
      written := tree;
      if !verified {
        return false, false, written;
      }
      var wrote := WriteArtifactFiles(files);
      written := tree;
      if Outside(files) {
        OutsideKeepsPrevious(old(tree), written, files);
      }
      if wrote.Err? || !nginxOk {
        return false, false, written;
      }
      var taken := SnapshotPrevious(id);
      return afterOk, taken.Ok?, written;
    }

    /** A rollback restores the named release's snapshot; later phases can fail it but undo nothing. */
    method HandleRollback(target: Option<string>, afterOk: bool) returns (succeeded: bool)
      requires IsTree(tree)
      modifies this
      ensures IsTree(tree) && SameKinds(old(tree), tree)
      ensures target.None? ==> tree == old(tree)
      ensures succeeded ==> target.Some? && afterOk
      ensures NoNesting(old(tree)) ==>
                && SamePrevious(old(tree), tree)
                && (target.Some? && RestoreFits(old(tree), target.value) ==> IsRestore(old(tree), tree, target.value))
                && (succeeded <==> target.Some? && RestoreFits(old(tree), target.value) && afterOk)
    {
      if target.None? {
        return false;
      }
      var restored := RestoreFromSnapshot(target.value);
      return restored.Ok? && afterOk;
    }

    /** Copies the live tree into .previous/{id}, over whatever an earlier snapshot left there. */
    method SnapshotPrevious(id: string) returns (r: Result<(), FsError>)
      requires IsTree(tree)
      modifies this
      ensures IsTree(tree)
      ensures r.Ok? <==> SnapshotFits(old(tree), id)
      ensures r.Ok? ==> IsSnapshot(old(tree), tree, id)
      ensures r.Ok? ==> forall p :: p in old(tree) && (p == [] || p[0] != ".previous") ==>
                          [".previous", id] + p in tree && tree[[".previous", id] + p] == old(tree)[p]
      ensures SameLive(old(tree), tree) && OnlyTouches(old(tree), tree, id)
    {
      ghost var t := tree;
      MkdirSnapshot(tree, id);
      var made := MkdirAll(tree, SnapshotDir(id));
      if made.None? {
        RootClash(tree, id);
        return Err(NotADirectory);
      }
      tree := made.value;
      ghost var base := tree;
      r := CopyLive(id);
      MkdirIsHarmless(t, base, tree, id);
      MkdirTouches(t, base, tree, id);
    }

    method CopyLive(id: string) returns (r: Result<(), FsError>)
      requires IsTree(tree) && HasSnapshotDir(tree, id)
      modifies this
      ensures IsTree(tree)
      ensures r.Ok? <==> SnapshotFits(old(tree), id)
      ensures r.Ok? ==> IsSnapshot(old(tree), tree, id)
      ensures SameLive(old(tree), tree) && OnlyTouches(old(tree), tree, id)
    {
      ghost var t := tree;
      LiveIsClosed(tree);
      var order := Walk(set p | p in tree && !InPrevious(p));
      SnapshotOutcome(tree, id, order);
      r := CopyWalk([], SnapshotDir(id), order);
      WalkTouches(t, tree, id, order);
    }

    /** Copies .previous/{id} back over the live tree.  A snapshot with a `.previous` of its own would be copied into
        `.previous`; then only the shape of the tree is promised. */
    method RestoreFromSnapshot(id: string) returns (r: Result<(), FsError>)
      requires IsTree(tree)
      modifies this
      ensures IsTree(tree) && SameKinds(old(tree), tree)
      ensures r.Ok? ==> SnapshotDir(id) in old(tree) && old(tree)[SnapshotDir(id)].Dir?
      ensures NoNesting(old(tree)) ==>
                && (r.Ok? <==> RestoreFits(old(tree), id))
                && (r.Ok? ==> IsRestore(old(tree), tree, id))
                && SamePrevious(old(tree), tree)
                && (forall p :: SnapshotDir(id) + p !in old(tree) ==> SameAt(old(tree), tree, p))
                && (r.Ok? ==> forall p :: [".previous", id] + p in old(tree) ==>
                                p in tree && tree[p] == old(tree)[[".previous", id] + p])
    {
      ghost var t := tree;
      var dir := SnapshotDir(id);
      if dir !in tree {
        return Err(SnapshotNotFound);
      }
      if !tree[dir].Dir? {
        return Err(NotADirectory);
      }
      SnapshotIsClosed(tree, id);
      var order := Walk(set p | p in tree && dir <= p :: p[2..]);
      WalkIsSnapshot(tree, id, order);
      assert forall i :: 0 <= i < |order| ==> order[i] in order;
      if NoNesting(t) {
        SnapshotEntries(tree, id, order);
        RestoreOutcome(t, id, order);
      }
      r := CopyWalk(dir, [], order);
    }
  }

  // ── Writing ────────────────────────────────────────────────────────────────

  datatype ManifestFile = ManifestFile(path: Path, contents: seq<int>)

  /** Where a manifest path goes in the deploy tree; nginx files go elsewhere. */
  function Destination(p: Path): Option<Path> {
    if |p| > 1 && p[0] == "html" then Some(p[1..])
    else if |p| > 1 && p[0] == "nginx" then None
    else Some(p)
  }

  /** What lies below "html" goes to the root of the deploy tree, what lies below "nginx" does not go there at all, and
      everything else keeps its place. */
  lemma RoutesMean(p: Path)
    ensures p != [] ==> Destination(["html"] + p) == Some(p) && Destination(["nginx"] + p) == None
    ensures (|p| < 2 || (p[0] != "html" && p[0] != "nginx")) ==> Destination(p) == Some(p)
  {
    assert p != [] ==> (["html"] + p)[1..] == p;
  }

  predicate LastFor(files: seq<ManifestFile>, i: nat)
    requires i < |files|
  {
    forall j :: i < j < |files| ==> Destination(files[j].path) != Destination(files[i].path)
  }

  predicate Placed(t: Tree, f: ManifestFile) {
    var dest := Destination(f.path);
    dest.Some? ==> dest.value in t && t[dest.value] == File(f.contents)
  }

  predicate PlacedSoFar(t: Tree, files: seq<ManifestFile>, k: nat)
    requires k <= |files|
  {
    forall i :: 0 <= i < k && LastFor(files[..k], i) ==> Placed(t, files[i])
  }

  lemma PlacedSnoc(before: Tree, now: Tree, files: seq<ManifestFile>, k: nat)
    requires k < |files| && PlacedSoFar(before, files, k) && Placed(now, files[k])
    requires forall p :: p in before ==> p in now && (Destination(files[k].path) != Some(p) ==> now[p] == before[p])
    ensures PlacedSoFar(now, files, k + 1)
  {
    var front, all := files[..k], files[..k + 1];
    forall i | 0 <= i < k && LastFor(all, i)
      ensures Placed(now, files[i])
    {
      assert all[k] == files[k] && all[i] == files[i];
      assert forall j :: i < j < k ==> front[j] == all[j];
      assert LastFor(front, i) && Placed(before, files[i]);
    }
  }

  predicate NothingDeleted(a: Tree, b: Tree) {
    forall p :: p in a ==> p in b
  }

  /** No file goes to the path or below it. */
  predicate Bypassed(files: seq<ManifestFile>, p: Path) {
    forall i :: 0 <= i < |files| && Destination(files[i].path).Some? ==> !(p <= Destination(files[i].path).value)
  }

  /** The path and everything above it. */
  function PathTo(p: Path): set<Path> {
    set k | 0 <= k <= |p| :: p[..k]
  }

  /** A file can be written: it is not the deploy directory, nor in place of a directory, nor below a file. */
  predicate CanWrite(t: Tree, dest: Path) {
    && dest != [] && !(dest in t && t[dest].Dir?)
    && forall k :: 0 <= k < |dest| ==> !(dest[..k] in t && t[dest[..k]].File?)
  }

  /** Where the files are written. */
  function Aims(files: seq<ManifestFile>): set<Path> {
    set i | 0 <= i < |files| && Destination(files[i].path).Some? :: Destination(files[i].path).value
  }

  /** Every file can be written to the tree, and none is to lie below another. */
  ghost predicate FilesFit(t: Tree, aims: set<Path>) {
    (forall p :: p in aims ==> CanWrite(t, p)) && (forall p, q :: p in aims && q in aims ==> !IsBelow(q, p))
  }

  predicate IsBelow(q: Path, p: Path) {
    p < q
  }

  ghost predicate Above(aims: set<Path>, p: Path) {
    exists d :: d in aims && p <= d
  }

  /** The shape of the tree once the files are written: old nodes keep their kind, new ones are the files and the
      directories above them. */
  ghost predicate IsAfter(t: Tree, now: Tree, aims: set<Path>) {
    forall p :: ShapeAt(t, now, aims, p)
  }

  ghost predicate ShapeAt(t: Tree, now: Tree, aims: set<Path>, p: Path) {
    && (p in now <==> p in t || Above(aims, p))
    && (p in t && p in now ==> now[p].Dir? == t[p].Dir?)
    && (p !in t && p in now ==> (now[p].File? <==> p in aims))
  }

  /** The tree between two files. */
  ghost predicate WrittenSoFar(t: Tree, now: Tree, files: seq<ManifestFile>, k: nat)
    requires k <= |files|
  {
    && NothingDeleted(t, now) && OnlyWrites(t, now, files)
    && FilesFit(t, Aims(files[..k])) && IsAfter(t, now, Aims(files[..k]))
  }

  lemma WriteNeedsDirs(t: Tree, dest: Path)
    requires IsTree(t) && dest != []
    ensures MkdirAll(t, Parent(dest)).Some? <==> forall k :: 0 <= k < |dest| ==> !(dest[..k] in t && t[dest[..k]].File?)
    ensures MkdirAll(t, Parent(dest)).Some? ==>
              MkdirAll(t, Parent(dest)).value.Keys + {dest} == t.Keys + PathTo(dest)
    ensures dest in t ==> MkdirAll(t, Parent(dest)) == Some(t)
  {
    var p := Parent(dest);
    assert forall k :: 0 <= k <= |p| ==> p[..k] == dest[..k];
    var above := set k | 0 <= k <= |p| :: p[..k];
    assert PathTo(dest) == above + {dest} by {
      assert dest[..|dest|] == dest;
      forall q | q in PathTo(dest)
        ensures q in above + {dest}
      {
        var k :| 0 <= k <= |dest| && dest[..k] == q;
        assert k < |dest| ==> p[..k] == q;
      }
      forall q | q in above
        ensures q in PathTo(dest)
      {
        var k :| 0 <= k <= |p| && p[..k] == q;
        assert dest[..k] == q;
      }
    }
    if dest in t {
      assert Hangs(t, dest);
      forall k | 0 <= k <= |p|
        ensures p[..k] in t && t[p[..k]].Dir?
      {
        PrefixesAreDirs(t, p, k);
      }
      assert t.Keys + above == t.Keys;
      assert MkdirAll(t, p).value == t;
    }
  }

  lemma AimsSnoc(files: seq<ManifestFile>, k: nat)
    requires k < |files|
    ensures Aims(files[..k + 1]) ==
            Aims(files[..k]) + if Destination(files[k].path).Some? then {Destination(files[k].path).value} else {}
    ensures Aims(files[..k + 1]) <= Aims(files)
  {
    var front, all, d := files[..k], files[..k + 1], Destination(files[k].path);
    assert all[k] == files[k] && forall i :: 0 <= i < k ==> all[i] == front[i] == files[i];
    forall p | p in Aims(front) || d == Some(p)
      ensures p in Aims(all)
    {
      if p in Aims(front) {
        var i :| 0 <= i < k && Destination(front[i].path) == Some(p);
        assert Destination(all[i].path) == Some(p);
      } else {
        assert Destination(all[k].path) == Some(p);
      }
    }
    forall p | p in Aims(all)
      ensures p in Aims(files) && (p in Aims(front) || d == Some(p))
    {
      var i :| 0 <= i <= k && Destination(all[i].path) == Some(p);
      assert Destination(files[i].path) == Some(p);
      assert i < k ==> Destination(front[i].path) == Some(p);
    }
  }

  lemma PrefixOf(p: Path, q: Path)
    requires p <= q
    ensures q[..|p|] == p
  {
  }

  lemma FitsThenCanWrite(t: Tree, now: Tree, aims: set<Path>, d: Path)
    requires FilesFit(t, aims + {d}) && IsAfter(t, now, aims)
    ensures CanWrite(now, d)
  {
    assert d in aims + {d} && CanWrite(t, d);
    assert ShapeAt(t, now, aims, d);
    assert Above(aims, d) ==> d in aims by {
      if Above(aims, d) {
        var q :| q in aims && d <= q;
        assert q in aims + {d} && !IsBelow(q, d);
        PrefixOf(d, q);
        assert q[..|q|] == q == d;
      }
    }
    forall k | 0 <= k < |d|
      ensures !(d[..k] in now && now[d[..k]].File?)
    {
      assert ShapeAt(t, now, aims, d[..k]);
      assert IsBelow(d, d[..k]);
    }
  }

  lemma NoConflict(t: Tree, now: Tree, aims: set<Path>, d: Path, q: Path)
    requires FilesFit(t, aims) && IsAfter(t, now, aims) && CanWrite(now, d) && q in aims
    ensures !IsBelow(q, d) && !IsBelow(d, q)
  {
    assert CanWrite(t, q);
    assert ShapeAt(t, now, aims, q) && ShapeAt(t, now, aims, d);
    assert Above(aims, q);
    assert d <= q ==> Above(aims, d) && q[..|d|] == d;
    assert q <= d ==> d[..|q|] == q;
  }

  lemma CanWriteBefore(t: Tree, now: Tree, aims: set<Path>, d: Path)
    requires IsAfter(t, now, aims) && CanWrite(now, d)
    ensures CanWrite(t, d)
  {
    assert ShapeAt(t, now, aims, d);
    forall k | 0 <= k < |d|
      ensures !(d[..k] in t && t[d[..k]].File?)
    {
      assert ShapeAt(t, now, aims, d[..k]);
    }
  }

  /** A file can be written now exactly when it fits with the tree and the files written before it. */
  lemma FitsExactly(t: Tree, now: Tree, aims: set<Path>, d: Path)
    requires FilesFit(t, aims) && IsAfter(t, now, aims)
    ensures CanWrite(now, d) <==> FilesFit(t, aims + {d})
  {
    if FilesFit(t, aims + {d}) {
      FitsThenCanWrite(t, now, aims, d);
    }
    if CanWrite(now, d) {
      CanWriteBefore(t, now, aims, d);
      forall q | q in aims
        ensures !IsBelow(q, d) && !IsBelow(d, q)
      {
        NoConflict(t, now, aims, d, q);
      }
    }
  }

  lemma PathToIs(d: Path, p: Path)
    ensures p in PathTo(d) <==> p <= d
  {
    if p <= d {
      PrefixOf(p, d);
    }
  }

  lemma AboveSnoc(aims: set<Path>, d: Path, p: Path)
    ensures Above(aims + {d}, p) <==> Above(aims, p) || p <= d
    ensures p in aims ==> Above(aims, p)
  {
    assert d in aims + {d};
    if Above(aims, p) {
      var q :| q in aims && p <= q;
      assert q in aims + {d};
    }
  }

  lemma AfterStep(t: Tree, before: Tree, now: Tree, aims: set<Path>, d: Path)
    requires CanWrite(t, d) && IsAfter(t, before, aims)
    requires now.Keys == before.Keys + PathTo(d) && d in now && now[d].File?
    requires forall p :: p in before && p != d ==> now[p] == before[p]
    requires forall p :: p in now && p !in before && p != d ==> now[p].Dir?
    ensures IsAfter(t, now, aims + {d})
  {
    forall p
      ensures ShapeAt(t, now, aims + {d}, p)
    {
      assert ShapeAt(t, before, aims, p);
      AboveSnoc(aims, d, p);
      PathToIs(d, p);
    }
  }

  /** Only destinations and the directories above them change. */
  ghost predicate OnlyWrites(a: Tree, b: Tree, files: seq<ManifestFile>) {
    forall p :: Bypassed(files, p) ==> SameAt(a, b, p)
  }

  /** Every file goes to a place outside `.previous`. */
  predicate Outside(files: seq<ManifestFile>) {
    forall i :: 0 <= i < |files| && Destination(files[i].path).Some? ==> !InPrevious(Destination(files[i].path).value)
  }

  lemma OutsideKeepsPrevious(a: Tree, b: Tree, files: seq<ManifestFile>)
    requires OnlyWrites(a, b, files) && Outside(files)
    ensures SamePrevious(a, b)
  {
    forall p | InPrevious(p)
      ensures SameAt(a, b, p)
    {
      assert Bypassed(files, p);
    }
  }

  lemma WriteIsAWrite(a: Tree, b: Tree, c: Tree, files: seq<ManifestFile>, k: nat)
    requires k < |files| && Destination(files[k].path).Some?
    requires NothingDeleted(a, b) && OnlyWrites(a, b, files)
    requires forall p :: p in b ==> p in c && (p != Destination(files[k].path).value ==> c[p] == b[p])
    requires forall p :: p in c && p !in b ==> p <= Destination(files[k].path).value
    ensures NothingDeleted(a, c) && OnlyWrites(a, c, files)
  {
    forall p | Bypassed(files, p)
      ensures SameAt(a, c, p)
    {
      assert SameAt(a, b, p);
    }
  }

  /** What MkdirAll adds. */
  lemma MkdirFacts(t: Tree, p: Path)
    requires IsTree(t)
    ensures var made := MkdirAll(t, p);
            made.Some? ==>
              && IsTree(made.value) && p in made.value && made.value[p].Dir?
              && (forall q :: q in t ==> q in made.value && made.value[q] == t[q])
              && (forall q :: q in made.value && q !in t ==> q <= p)
  {
    var made := MkdirAll(t, p);
    if made.Some? {
      var after := made.value;
      var prefixes := set k | 0 <= k <= |p| :: p[..k];
      assert p[..|p|] == p;
      assert p in prefixes;
      forall q | q in after
        ensures Hangs(after, q)
      {
        if q in t {
          assert Hangs(t, q);
        } else {
          var k :| 0 <= k <= |p| && p[..k] == q;
          if k > 0 {
            assert Parent(q) == p[..k - 1];
            assert p[..k - 1] in prefixes;
          }
        }
      }
    }
  }

  // ── Snapshots and restores ─────────────────────────────────────────────────

  ghost predicate SameAt(a: Tree, b: Tree, p: Path) {
    (p in a <==> p in b) && (p in a ==> a[p] == b[p])
  }

  /** The trees agree inside `.previous`, or outside it. */
  ghost predicate SameSide(a: Tree, b: Tree, previous: bool) {
    forall p :: InPrevious(p) == previous ==> SameAt(a, b, p)
  }

  ghost predicate SameLive(a: Tree, b: Tree) {
    SameSide(a, b, false)
  }

  ghost predicate SamePrevious(a: Tree, b: Tree) {
    SameSide(a, b, true)
  }

  ghost predicate OnlyCopied(a: Tree, b: Tree, dst: Path, order: seq<Path>) {
    forall p :: !(dst <= p && p[|dst|..] in order) ==> SameAt(a, b, p)
  }

  /** Nothing changed but the snapshot of `id`, where no `.previous` path appeared. */
  ghost predicate OnlyTouches(a: Tree, b: Tree, id: string) {
    forall p :: p != [PREVIOUS] && !(SnapshotDir(id) <= p && !InPrevious(p[2..])) ==> SameAt(a, b, p)
  }

  /** `after` is `before` with the live tree laid over the snapshot of `id`; nothing else changed. */
  ghost predicate IsSnapshot(before: Tree, after: Tree, id: string) {
    var dir := SnapshotDir(id);
    && SameLive(before, after)
    && (forall p :: p in before && !InPrevious(p) ==> dir + p in after && after[dir + p] == before[p])
    && (forall p :: InPrevious(p) && !(dir <= p && p[2..] in before && !InPrevious(p[2..])) ==>
                      if p == [PREVIOUS] then p in after && after[p].Dir? else SameAt(before, after, p))
  }

  /** `after` is `before` with the snapshot of `id` laid over the live tree; nothing else changed. */
  ghost predicate IsRestore(before: Tree, after: Tree, id: string) {
    var dir := SnapshotDir(id);
    && (forall p :: dir + p in before ==> p in after && after[p] == before[dir + p])
    && (forall p :: dir + p !in before ==> SameAt(before, after, p))
  }

  /** A snapshot goes through exactly when no node of the older snapshot has the other kind. */
  ghost predicate SnapshotFits(t: Tree, id: string) {
    && !([PREVIOUS] in t && t[[PREVIOUS]].File?)
    && forall p :: p in t && !InPrevious(p) ==> !Clash(t, [], SnapshotDir(id), p)
  }

  /** A restore goes through exactly when the snapshot exists and no live node has the other kind. */
  ghost predicate RestoreFits(t: Tree, id: string) {
    && SnapshotDir(id) in t && t[SnapshotDir(id)].Dir?
    && forall p :: SnapshotDir(id) + p in t ==> !Clash(t, SnapshotDir(id), [], p)
  }

  lemma AddDirKeepsTree(t: Tree, p: Path)
    requires IsTree(t) && (p == [] || (Parent(p) in t && t[Parent(p)].Dir?))
    ensures IsTree(t[p := Dir])
  {
    var after := t[p := Dir];
    forall q | q in after
      ensures Hangs(after, q)
    {
      assert q in t ==> Hangs(t, q);
    }
  }

  lemma AddFileKeepsTree(t: Tree, p: Path, f: Node)
    requires IsTree(t) && p != [] && Parent(p) in t && t[Parent(p)].Dir? && f.File?
    requires p in t ==> t[p].File?
    ensures IsTree(t[p := f])
  {
    assert Parent(p) != p;
    var after := t[p := f];
    forall q | q in after
      ensures Hangs(after, q)
    {
      assert q in t ==> Hangs(t, q);
    }
  }

  /** Nothing is deleted and no node changes its kind. */
  predicate SameKinds(a: Tree, b: Tree) {
    forall p :: p in a ==> p in b && b[p].Dir? == a[p].Dir?
  }

  /** Every visited entry has a target of its kind. */
  predicate Reached(t: Tree, now: Tree, src: Path, dst: Path, done: seq<Path>)
    requires forall i :: 0 <= i < |done| ==> src + done[i] in t
  {
    forall i :: 0 <= i < |done| ==> dst + done[i] in now && now[dst + done[i]].Dir? == t[src + done[i]].Dir?
  }

  lemma ParentReached(t: Tree, now: Tree, src: Path, dst: Path, order: seq<Path>, i: nat)
    requires IsTree(t) && IsTree(now) && SameKinds(t, now) && ParentsFirst(order) && i < |order|
    requires forall k :: 0 <= k < |order| ==> src + order[k] in t
    requires dst in t && t[dst].Dir? && src in t && t[src].Dir? && Reached(t, now, src, dst, order[..i])
    ensures var rel := order[i];
            && src + rel in now && (dst + rel == [] ==> now[src + rel].Dir?)
            && (dst + rel != [] ==> Parent(dst + rel) in now && now[Parent(dst + rel)].Dir?)
  {
    var rel := order[i];
    assert ParentBefore(order, i);
    if rel != [] {
      var k :| 0 <= k < i && order[..i][k] == Parent(rel);
      assert Hangs(t, src + rel);
      assert Parent(dst + rel) == dst + Parent(rel) && Parent(src + rel) == src + Parent(rel);
    } else {
      assert src + rel == src && dst + rel == dst;
      assert Hangs(now, dst);
    }
  }

  lemma ReachedSnoc(t: Tree, before: Tree, now: Tree, src: Path, dst: Path, done: seq<Path>, rel: Path)
    requires (forall i :: 0 <= i < |done| ==> src + done[i] in t) && src + rel in t && src + rel in before
    requires Reached(t, before, src, dst, done) && SameKinds(t, before)
    requires now == before[dst + rel := before[src + rel]]
    requires !(dst + rel in before && before[dst + rel].Dir? != before[src + rel].Dir?)
    ensures Reached(t, now, src, dst, done + [rel]) && SameKinds(t, now)
  {
  }

  /** The step in the separated case. */
  lemma EntryStep(t: Tree, src: Path, dst: Path, order: seq<Path>, i: nat)
    requires IsTree(t) && AllEntries(t, src, dst, order) && ParentsFirst(order) && i < |order|
    requires dst in t && t[dst].Dir? && src in t && t[src].Dir? && NoClash(t, src, dst, order[..i])
    ensures var now, rel := Copied(t, src, dst, order[..i]), order[i];
            && src + rel in now && now[src + rel] == t[src + rel]
            && (dst + rel in now && now[dst + rel].Dir? != t[src + rel].Dir? <==> Clash(t, src, dst, rel))
            && Copied(t, src, dst, order[..i + 1]) == now[dst + rel := t[src + rel]]
  {
    assert IsEntry(t, src, dst, order[i]);
    assert order[..i + 1][..i] == order[..i];
    CopiedKeepsSource(t, src, dst, order[..i], src + order[i]);
    KindUnchanged(t, src, dst, order[..i], order[i]);
  }

  lemma SideAfter(t: Tree, src: Path, dst: Path, order: seq<Path>, i: nat)
    requires AllEntries(t, src, dst, order) && i <= |order|
    ensures SameSide(t, Copied(t, src, dst, order[..i]), InPrevious(src))
    ensures OnlyCopied(t, Copied(t, src, dst, order[..i]), dst, order)
  {
    CopyKeepsSide(t, src, dst, order[..i]);
  }

  lemma KindUnchanged(t: Tree, src: Path, dst: Path, done: seq<Path>, rel: Path)
    requires AllEntries(t, src, dst, done) && IsEntry(t, src, dst, rel) && NoClash(t, src, dst, done)
    ensures var now := Copied(t, src, dst, done);
            dst + rel in now && now[dst + rel].Dir? != t[src + rel].Dir? <==> Clash(t, src, dst, rel)
  {
    assert (dst + rel)[|dst|..] == rel;
    if rel in done {
      CopiedAt(t, src, dst, done, rel);
      var j :| 0 <= j < |done| && done[j] == rel;
      assert !Clash(t, src, dst, done[j]);
    } else {
      CopiedElsewhere(t, src, dst, done, dst + rel);
    }
  }

  // ── Walks ──────────────────────────────────────────────────────────────────

  predicate ParentIn(entries: set<Path>, r: Path) {
    r != [] ==> Parent(r) in entries
  }

  predicate Closed(entries: set<Path>) {
    [] in entries && forall r {:trigger ParentIn(entries, r)} :: r in entries ==> ParentIn(entries, r)
  }

  /** Visits every entry once, directories before what they hold. */
  method Walk(entries: set<Path>) returns (order: seq<Path>)
    requires Closed(entries)
    ensures ParentsFirst(order)
    ensures forall r :: r in order <==> r in entries
  {
    order := [];
    var left := entries;
    while left != {}
      invariant left <= entries
      invariant forall r :: r in order <==> r in entries && r !in left
      invariant ParentsFirst(order)
      decreases left
    {
      var r := AnyOf(left);
      while r != [] && Parent(r) in left
        invariant r in left
        decreases |r|
      {
        r := Parent(r);
      }
      assert ParentIn(entries, r);
      ParentsFirstSnoc(order, r);
      order := order + [r];
      left := left - {r};
    }
  }

  lemma ParentsFirstSnoc(order: seq<Path>, r: Path)
    requires ParentsFirst(order) && (r != [] ==> Parent(r) in order)
    ensures ParentsFirst(order + [r])
  {
    var all := order + [r];
    forall i: nat | i < |all|
      ensures ParentBefore(all, i)
    {
      if i < |order| {
        assert ParentBefore(order, i);
        assert all[..i] == order[..i];
      } else {
        assert all[..i] == order;
      }
    }
  }

  lemma LiveIsClosed(t: Tree)
    requires IsTree(t)
    ensures Closed(set p | p in t && !InPrevious(p))
  {
    var live := set p | p in t && !InPrevious(p);
    forall p | p in live
      ensures ParentIn(live, p)
    {
      assert Hangs(t, p);
    }
  }

  lemma SnapshotIsClosed(t: Tree, id: string)
    requires IsTree(t) && SnapshotDir(id) in t
    ensures Closed(set p | p in t && SnapshotDir(id) <= p :: p[2..])
  {
    var dir := SnapshotDir(id);
    var rels := set p | p in t && dir <= p :: p[2..];
    assert dir[2..] == [];
    forall r | r in rels
      ensures ParentIn(rels, r)
    {
      var p :| p in t && dir <= p && p[2..] == r;
      assert p == dir + r;
      assert Hangs(t, dir + r);
      if r != [] {
        assert Parent(dir + r) == dir + Parent(r);
        assert (dir + Parent(r))[2..] == Parent(r);
      }
    }
  }

  // ── What the two walks do ──────────────────────────────────────────────────

  predicate WalksLive(t: Tree, order: seq<Path>) {
    && ParentsFirst(order)
    && (forall p :: p in order ==> p in t && !InPrevious(p))
    && (forall p :: p in t && !InPrevious(p) ==> p in order)
  }

  ghost predicate WalksSnapshot(t: Tree, id: string, order: seq<Path>) {
    ParentsFirst(order) && forall r :: r in order <==> SnapshotDir(id) + r in t
  }

  lemma WalkIsSnapshot(t: Tree, id: string, order: seq<Path>)
    requires ParentsFirst(order)
    requires forall r :: r in order <==> r in (set p | p in t && SnapshotDir(id) <= p :: p[2..])
    ensures WalksSnapshot(t, id, order)
  {
    forall r
      ensures r in order <==> SnapshotDir(id) + r in t
    {
      var rels := set p | p in t && SnapshotDir(id) <= p :: p[2..];
      assert (SnapshotDir(id) + r)[2..] == r;
      if r in rels {
        var p :| p in t && SnapshotDir(id) <= p && p[2..] == r;
        assert p == SnapshotDir(id) + r;
      }
    }
  }

  lemma LiveEntries(t: Tree, id: string, order: seq<Path>)
    requires WalksLive(t, order)
    ensures AllEntries(t, [], SnapshotDir(id), order)
  {
    forall i | 0 <= i < |order|
      ensures IsEntry(t, [], SnapshotDir(id), order[i])
    {
      assert order[i] in order && [] + order[i] == order[i];
    }
  }

  lemma SnapshotEntries(t: Tree, id: string, order: seq<Path>)
    requires NoNesting(t) && WalksSnapshot(t, id, order)
    ensures AllEntries(t, SnapshotDir(id), [], order)
  {
    forall i | 0 <= i < |order|
      ensures IsEntry(t, SnapshotDir(id), [], order[i])
    {
      var r := order[i];
      assert r in order && [] + r == r;
      assert r != [] ==> (SnapshotDir(id) + r)[2] == r[0];
    }
  }

  /** Creating the snapshot directory. */
  lemma MkdirSnapshot(t: Tree, id: string)
    requires IsTree(t)
    ensures var dir, made := SnapshotDir(id), MkdirAll(t, SnapshotDir(id));
            && (made.None? <==> ([PREVIOUS] in t && t[[PREVIOUS]].File?) || (dir in t && t[dir].File?))
            && (made.Some? ==> made.value == t[[PREVIOUS] := Dir][dir := Dir] && IsTree(made.value))
  {
    var dir := SnapshotDir(id);
    assert dir[..0] == [] && dir[..1] == [PREVIOUS] && dir[..2] == dir;
    var made := MkdirAll(t, dir);
    if made.Some? {
      var prefixes := set k | 0 <= k <= |dir| :: dir[..k];
      assert prefixes == {[], [PREVIOUS], dir};
      assert made.value == t[[PREVIOUS] := Dir][dir := Dir];
      assert Parent([PREVIOUS]) == [] && Parent(dir) == [PREVIOUS];
      AddDirKeepsTree(t, [PREVIOUS]);
      AddDirKeepsTree(t[[PREVIOUS] := Dir], dir);
    }
  }

  /** A file in the place of the snapshot directory is a clash with the root. */
  lemma RootClash(t: Tree, id: string)
    requires IsTree(t)
    requires ([PREVIOUS] in t && t[[PREVIOUS]].File?) || (SnapshotDir(id) in t && t[SnapshotDir(id)].File?)
    ensures !SnapshotFits(t, id)
  {
    var root: Path := [];
    assert root + root == root && SnapshotDir(id) + root == SnapshotDir(id);
    assert SnapshotDir(id) in t && t[SnapshotDir(id)].File? ==> Clash(t, [], SnapshotDir(id), root);
  }

  predicate HasSnapshotDir(t: Tree, id: string) {
    [PREVIOUS] in t && t[[PREVIOUS]].Dir? && SnapshotDir(id) in t && t[SnapshotDir(id)].Dir?
  }

  lemma MkdirIsHarmless(t: Tree, base: Tree, after: Tree, id: string)
    requires IsTree(t) && base == t[[PREVIOUS] := Dir][SnapshotDir(id) := Dir]
    requires !([PREVIOUS] in t && t[[PREVIOUS]].File?) && !(SnapshotDir(id) in t && t[SnapshotDir(id)].File?)
    ensures SnapshotFits(base, id) <==> SnapshotFits(t, id)
    ensures IsSnapshot(base, after, id) ==> IsSnapshot(t, after, id)
    ensures SameLive(base, after) ==> SameLive(t, after)
  {
    var dir := SnapshotDir(id);
    forall p | !InPrevious(p)
      ensures SameAt(t, base, p)
      ensures p in t ==> (Clash(base, [], dir, p) <==> Clash(t, [], dir, p))
    {
      assert [] + p == p;
      assert p != [] ==> |dir + p| > 2;
      assert p == [] ==> dir + p == dir;
    }
    if IsSnapshot(base, after, id) {
      MkdirKeepsRest(t, base, after, id);
    }
  }

  lemma MkdirTouches(t: Tree, base: Tree, after: Tree, id: string)
    requires base == t[[PREVIOUS] := Dir][SnapshotDir(id) := Dir] && OnlyTouches(base, after, id)
    ensures OnlyTouches(t, after, id)
  {
    assert SnapshotDir(id)[2..] == [];
    forall p | p != [PREVIOUS] && !(SnapshotDir(id) <= p && !InPrevious(p[2..]))
      ensures SameAt(t, after, p)
    {
      assert SameAt(base, after, p);
    }
  }

  lemma WalkTouches(t: Tree, after: Tree, id: string, order: seq<Path>)
    requires OnlyCopied(t, after, SnapshotDir(id), order) && forall p :: p in order ==> !InPrevious(p)
    ensures OnlyTouches(t, after, id)
  {
    forall p | p != [PREVIOUS] && !(SnapshotDir(id) <= p && !InPrevious(p[2..]))
      ensures SameAt(t, after, p)
    {
    }
  }

  lemma MkdirKeepsRest(t: Tree, base: Tree, after: Tree, id: string)
    requires IsTree(t) && base == t[[PREVIOUS] := Dir][SnapshotDir(id) := Dir]
    requires !([PREVIOUS] in t && t[[PREVIOUS]].File?)
    requires IsSnapshot(base, after, id)
    ensures IsSnapshot(t, after, id)
  {
    var dir := SnapshotDir(id);
    assert dir[2..] == [];
    forall p | !InPrevious(p)
      ensures SameAt(t, after, p)
    {
      assert SameAt(base, after, p);
    }
    forall p | InPrevious(p) && !(dir <= p && p[2..] in t && !InPrevious(p[2..]))
      ensures if p == [PREVIOUS] then p in after && after[p].Dir? else SameAt(t, after, p)
    {
      assert p == [PREVIOUS] || SameAt(base, after, p);
    }
  }

  lemma SnapshotOutcome(t: Tree, id: string, order: seq<Path>)
    requires IsTree(t) && HasSnapshotDir(t, id) && WalksLive(t, order)
    ensures AllEntries(t, [], SnapshotDir(id), order)
    ensures NoClash(t, [], SnapshotDir(id), order) <==> SnapshotFits(t, id)
    ensures IsSnapshot(t, Copied(t, [], SnapshotDir(id), order), id)
  {
    LiveEntries(t, id, order);
    SnapshotContents(t, id, order);
    var dir := SnapshotDir(id);
    if SnapshotFits(t, id) {
      forall i | 0 <= i < |order| ensures !Clash(t, [], dir, order[i]) {
        assert order[i] in order;
      }
    }
    if NoClash(t, [], dir, order) {
      forall p | p in t && !InPrevious(p) ensures !Clash(t, [], dir, p) {
        var i :| 0 <= i < |order| && order[i] == p;
        assert !Clash(t, [], dir, order[i]);
      }
    }
  }

  lemma SnapshotContents(t: Tree, id: string, order: seq<Path>)
    requires HasSnapshotDir(t, id) && WalksLive(t, order) && AllEntries(t, [], SnapshotDir(id), order)
    ensures IsSnapshot(t, Copied(t, [], SnapshotDir(id), order), id)
  {
    var dir := SnapshotDir(id);
    var after := Copied(t, [], dir, order);
    forall p | !InPrevious(p) ensures SameAt(t, after, p) {
      CopiedKeepsSource(t, [], dir, order, p);
    }
    forall p | p in t && !InPrevious(p) ensures dir + p in after && after[dir + p] == t[p] {
      assert [] + p == p;
      CopiedAt(t, [], dir, order, p);
    }
    forall p | InPrevious(p) && !(dir <= p && p[2..] in t && !InPrevious(p[2..]))
      ensures SameAt(t, after, p)
    {
      CopiedElsewhere(t, [], dir, order, p);
    }
  }

  lemma RestoreOutcome(t: Tree, id: string, order: seq<Path>)
    requires WalksSnapshot(t, id, order) && AllEntries(t, SnapshotDir(id), [], order)
    requires SnapshotDir(id) in t && t[SnapshotDir(id)].Dir?
    ensures NoClash(t, SnapshotDir(id), [], order) <==> RestoreFits(t, id)
    ensures IsRestore(t, Copied(t, SnapshotDir(id), [], order), id)
  {
    var dir := SnapshotDir(id);
    var after := Copied(t, dir, [], order);
    if NoClash(t, dir, [], order) {
      forall p | dir + p in t ensures !Clash(t, dir, [], p) {
        var i :| 0 <= i < |order| && order[i] == p;
        assert !Clash(t, dir, [], order[i]);
      }
    }
    if RestoreFits(t, id) {
      forall i | 0 <= i < |order| ensures !Clash(t, dir, [], order[i]) {
        assert order[i] in order;
      }
    }
    forall p | dir + p in t ensures p in after && after[p] == t[dir + p] {
      assert [] + p == p;
      CopiedAt(t, dir, [], order, p);
    }
    forall p | dir + p !in t ensures SameAt(t, after, p) {
      assert p[0..] == p;
      CopiedElsewhere(t, dir, [], order, p);
    }
  }

  // ── Histories ──────────────────────────────────────────────────────────────

  /** Anything that happens to the deploy directory: a change outside `.previous`, or one of the two operations. */
  datatype Action = Change | Snapshot(id: string, ok: bool) | Restore(id: string, ok: bool)

  ghost predicate Steps(a: Tree, act: Action, b: Tree) {
    match act
    case Change => SamePrevious(a, b)
    case Snapshot(id, ok) => OnlyTouches(a, b, id) && (ok ==> IsSnapshot(a, b, id))
    case Restore(id, ok) => SamePrevious(a, b) && (ok ==> IsRestore(a, b, id))
  }

  ghost predicate IsHistory(trees: seq<Tree>, acts: seq<Action>) {
    |trees| == |acts| + 1 && forall i :: 0 <= i < |acts| ==> Steps(trees[i], acts[i], trees[i + 1])
  }

  lemma StepKeepsNoNesting(a: Tree, act: Action, b: Tree)
    requires Steps(a, act, b) && NoNesting(a)
    ensures NoNesting(b)
  {
    forall p | p in b && InPrevious(p) && |p| >= 3
      ensures p[2] != PREVIOUS
    {
      if act.Snapshot? && SnapshotDir(act.id) <= p && !InPrevious(p[2..]) {
        assert p[2..][0] == p[2];
      } else {
        assert SameAt(a, b, p);
      }
    }
  }

  /** No snapshot ever contains a `.previous` path. */
  lemma {:induction false} SnapshotsNeverNest(trees: seq<Tree>, acts: seq<Action>, k: nat)
    requires IsHistory(trees, acts) && NoNesting(trees[0]) && k <= |acts|
    ensures NoNesting(trees[k])
  {
    if k > 0 {
      SnapshotsNeverNest(trees, acts, k - 1);
      assert Steps(trees[k - 1], acts[k - 1], trees[k - 1 + 1]);
      StepKeepsNoNesting(trees[k - 1], acts[k - 1], trees[k]);
    }
  }

  /** The stored snapshot of `id` is the same in both trees. */
  ghost predicate SameSnapshot(a: Tree, b: Tree, id: string) {
    forall p :: SnapshotDir(id) <= p ==> SameAt(a, b, p)
  }

  /** Only snapshotting a release alters its snapshot: writes, restores and other releases' snapshots do not. */
  lemma {:induction false} SnapshotStays(trees: seq<Tree>, acts: seq<Action>, id: string, k: nat, n: nat)
    requires IsHistory(trees, acts) && k <= n <= |acts|
    requires forall i :: k <= i < n ==> !(acts[i].Snapshot? && acts[i].id == id)
    ensures SameSnapshot(trees[k], trees[n], id)
  {
    if k < n {
      SnapshotStays(trees, acts, id, k, n - 1);
      var a, b := trees[n - 1], trees[n];
      assert Steps(a, acts[n - 1], trees[n - 1 + 1]);
      forall p | SnapshotDir(id) <= p
        ensures SameAt(trees[k], b, p)
      {
        assert SameAt(trees[k], a, p);
        assert p[1] == id && p[0] == PREVIOUS;
        assert SameAt(a, b, p);
      }
    }
  }

  /** One path through a snapshot of `a` into `b`, a quiet time until `c`, and a restore into `d`. */
  lemma RestoredPath(a: Tree, b: Tree, c: Tree, d: Tree, id: string, p: Path)
    requires IsSnapshot(a, b, id) && SameSnapshot(b, c, id) && IsRestore(c, d, id)
    ensures p in a && !InPrevious(p) ==> p in d && d[p] == a[p]
    ensures SnapshotDir(id) + p !in b ==> SameAt(c, d, p)
    ensures SnapshotDir(id) + p in a && p !in a ==> p in d && d[p] == a[SnapshotDir(id) + p]
  {
    var stored := SnapshotDir(id) + p;
    assert SnapshotDir(id) <= stored && stored[2..] == p && InPrevious(stored);
    assert SameAt(b, c, stored);
    if p !in a {
      assert SameAt(a, b, stored);
    }
  }

  /** Whatever happens outside `.previous` and to other releases in between, a restore brings every path present at
      the latest snapshot back to its contents then; a path absent from the snapshot directory is left alone, and
      one that only an earlier snapshot of the same release holds comes back as that one stored it. */
  lemma RestoreBringsBackTheSnapshot(trees: seq<Tree>, acts: seq<Action>, id: string, k: nat, n: nat, p: Path)
    requires IsHistory(trees, acts) && k < n < |acts|
    requires acts[k] == Snapshot(id, true) && acts[n] == Restore(id, true)
    requires forall i :: k < i < n ==> !(acts[i].Snapshot? && acts[i].id == id)
    ensures p in trees[k] && !InPrevious(p) ==> p in trees[n + 1] && trees[n + 1][p] == trees[k][p]
    ensures SnapshotDir(id) + p !in trees[k + 1] ==> SameAt(trees[n], trees[n + 1], p)
    ensures SnapshotDir(id) + p in trees[k] && p !in trees[k] ==>
              p in trees[n + 1] && trees[n + 1][p] == trees[k][SnapshotDir(id) + p]
  {
    assert Steps(trees[k], acts[k], trees[k + 1]) && Steps(trees[n], acts[n], trees[n + 1]);
    SnapshotStays(trees, acts, id, k + 1, n);
    RestoredPath(trees[k], trees[k + 1], trees[n], trees[n + 1], id, p);
  }

  // ── Rolling back the release just deployed ─────────────────────────────────

  /** The files were written before the snapshot was taken, so restoring it reproduces the new release: the rollback
      changes no live file exactly when everything an earlier snapshot of the release held is still live. */
  lemma RollbackReproducesTheDeploy(before: Tree, written: Tree, deployed: Tree, rolledBack: Tree, id: string)
    requires NoNesting(before) && IsTree(written) && SamePrevious(before, written)
    requires IsSnapshot(written, deployed, id) && IsRestore(deployed, rolledBack, id)
    ensures SameLive(written, rolledBack) <==> forall r :: SnapshotDir(id) + r in before ==> r in written
  {
    var dir := SnapshotDir(id);
    forall r | !InPrevious(r)
      ensures r in written ==> SameAt(written, rolledBack, r)
      ensures r !in written ==> (SameAt(written, rolledBack, r) <==> dir + r !in before)
    {
      RolledBackPath(before, written, deployed, rolledBack, id, r);
    }
    forall r | dir + r in before
      ensures !InPrevious(r)
    {
      SnapshotHoldsLivePaths(before, id, r);
    }
    if SameLive(written, rolledBack) {
      forall r | dir + r in before
        ensures r in written
      {
        assert SameAt(written, rolledBack, r);
      }
    }
  }

  lemma RolledBackPath(before: Tree, written: Tree, deployed: Tree, rolledBack: Tree, id: string, r: Path)
    requires IsTree(written) && SamePrevious(before, written) && !InPrevious(r)
    requires IsSnapshot(written, deployed, id) && IsRestore(deployed, rolledBack, id)
    ensures r in written ==> SameAt(written, rolledBack, r)
    ensures r !in written ==> (SameAt(written, rolledBack, r) <==> SnapshotDir(id) + r !in before)
  {
    var dir := SnapshotDir(id);
    var p := dir + r;
    assert p[2..] == r && InPrevious(p);
    assert SameAt(before, written, p);
    assert SameAt(written, deployed, r);
    if r !in written {
      assert SameAt(written, deployed, p);
      if p !in deployed {
        assert SameAt(deployed, rolledBack, r);
      }
    }
  }

  /** A rollback right after the deploy restores the live state before it exactly when the deploy changed nothing and
      everything an earlier snapshot of the release held is live.  Writing deletes nothing, whatever was written. */
  lemma RollbackUndoesOnlyNoOps(before: Tree, written: Tree, deployed: Tree, rolledBack: Tree, id: string)
    requires NoNesting(before) && IsTree(written) && SamePrevious(before, written) && NothingDeleted(before, written)
    requires IsSnapshot(written, deployed, id) && IsRestore(deployed, rolledBack, id)
    ensures SameLive(before, rolledBack) <==>
            SameLive(before, written) && forall r :: SnapshotDir(id) + r in before ==> r in written
  {
    RollbackReproducesTheDeploy(before, written, deployed, rolledBack, id);
    if SameLive(before, written) && SameLive(written, rolledBack) {
      forall p | !InPrevious(p)
        ensures SameAt(before, rolledBack, p)
      {
        assert SameAt(before, written, p) && SameAt(written, rolledBack, p);
      }
    }
    if SameLive(before, rolledBack) {
      forall p | !InPrevious(p)
        ensures SameAt(before, written, p)
      {
        assert SameAt(before, rolledBack, p);
        RolledBackPath(before, written, deployed, rolledBack, id, p);
      }
      forall r | SnapshotDir(id) + r in before
        ensures r in written
      {
        SnapshotHoldsLivePaths(before, id, r);
        assert SameAt(before, rolledBack, r);
        RolledBackPath(before, written, deployed, rolledBack, id, r);
      }
    }
  }

  lemma SnapshotHoldsLivePaths(t: Tree, id: string, r: Path)
    requires NoNesting(t) && SnapshotDir(id) + r in t
    ensures !InPrevious(r)
  {
    assert r != [] ==> (SnapshotDir(id) + r)[2] == r[0];
  }
}
