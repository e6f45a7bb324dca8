/**
 Freezing and re-verifying a final-evidence package.

 A package is a map from relative paths to file contents.  A digest is a constructor, so
 it is collision-free; a manifest document carries its layout, so two byte-wise different
 files can hold the same entries.
*/
module EvidencePackage {
  import opened Options

  /** Path components relative to a root directory. */
  type Path = seq<string>

  datatype Digest = Sha256(content: Content)

  datatype Entry = Entry(path: Path, sha256: Digest, copiedFrom: Option<Path>)

  datatype Content =
    | Data(text: string)
    | ManifestDoc(artifacts: seq<Entry>, layout: string)
    | DigestLine(digest: Digest, blanks: string)

  type Tree = map<Path, Content>

  datatype Stage = Stage(milestone: string, artifacts: seq<Path>)

  const MANIFEST_NAME := "manifest.json"
  const DIGEST_NAME := "FINAL_EVIDENCE_SHA256"
  const MANIFEST: Path := [MANIFEST_NAME]
  const DIGEST: Path := [DIGEST_NAME]

  function BaseName(p: Path): string {
    if p == [] then "" else p[|p| - 1]
  }

  /** Names that the extra-file scan skips, in whatever directory. */
  predicate Ignored(p: Path) {
    BaseName(p) == MANIFEST_NAME || BaseName(p) == DIGEST_NAME
  }

  // -------------------------------------------------------------------------
  // Copying pipeline artifacts
  // -------------------------------------------------------------------------

  datatype Copying = Copying(tree: Tree, copied: seq<(Path, Path)>)

  function Target(milestone: string, rel: Path): Path {
    ["pipeline", milestone, BaseName(rel)]
  }

  /** Below the directory of the milestone, under the base name: two artifacts share a target
      exactly when they share both. */
  lemma {:induction false} TargetExactly(m: string, rel: Path, n: string, other: Path)
    ensures Target(m, rel)[..2] == ["pipeline", m] && BaseName(Target(m, rel)) == BaseName(rel)
    ensures Target(m, rel) == Target(n, other) <==> m == n && BaseName(rel) == BaseName(other)
  {
    assert Target(m, rel)[1] == m && Target(n, other)[1] == n;
    assert Target(m, rel)[2] == BaseName(rel) && Target(n, other)[2] == BaseName(other);
  }

  function CopyOne(data: Tree, c: Copying, milestone: string, rel: Path): Copying {
    if rel == [] || rel !in data then c
    else
      var dst := Target(milestone, rel);
      Copying(if dst in c.tree then c.tree else c.tree[dst := data[rel]], c.copied + [(dst, rel)])
  }

  function CopyStage(data: Tree, c: Copying, milestone: string, rels: seq<Path>): Copying
    decreases |rels|
  {
    if rels == [] then c else CopyStage(data, CopyOne(data, c, milestone, rels[0]), milestone, rels[1..])
  }

  function CopyChain(data: Tree, c: Copying, chain: seq<Stage>): Copying
    decreases |chain|
  {
    if chain == [] then c
    else CopyChain(data, CopyStage(data, c, chain[0].milestone, chain[0].artifacts), chain[1..])
  }

  function FirstSource(copied: seq<(Path, Path)>, dst: Path): Option<Path> {
    if copied == [] then None
    else if copied[0].0 == dst then Some(copied[0].1) else FirstSource(copied[1..], dst)
  }

  /** `{str(dst): src_rel for dst, src_rel in copied}`: a later pair replaces an earlier one. */
  function LastSource(copied: seq<(Path, Path)>, dst: Path): Option<Path> {
    if copied == [] then None
    else if copied[|copied| - 1].0 == dst then Some(copied[|copied| - 1].1)
    else LastSource(copied[..|copied| - 1], dst)
  }

  // -------------------------------------------------------------------------
  // The verdict
  // -------------------------------------------------------------------------

  /** `Raised` is the exception on a manifest that is not a JSON object of the right shape. */
  datatype Status = NotFound | Incomplete | Raised | Degraded | Verified

  datatype Report = Report(
    status: Status,
    missing: seq<Path>,
    modified: seq<Path>,
    extra: seq<Path>,
    manifestModified: bool)

  ghost predicate Listed(artifacts: seq<Entry>, p: Path) {
    exists k :: 0 <= k < |artifacts| && artifacts[k].path == p
  }

  predicate EntryHolds(t: Tree, e: Entry) {
    e.path in t && Sha256(t[e.path]) == e.sha256
  }

  function Recorded(c: Content): Option<Digest> {
    if c.DigestLine? then Some(c.digest) else None
  }

  ghost predicate Intact(t: Tree, artifacts: seq<Entry>)
    requires MANIFEST in t && DIGEST in t
  {
    && (forall k | 0 <= k < |artifacts| :: EntryHolds(t, artifacts[k]))
    && (forall p | p in t && !Ignored(p) :: Listed(artifacts, p))
    && Recorded(t[DIGEST]) == Some(Sha256(t[MANIFEST]))
  }

  /** The verdict on a package tree; None is a package directory that does not exist. */
  ghost function Verdict(t: Option<Tree>): Status {
    if t.None? then NotFound
    else if MANIFEST !in t.value || DIGEST !in t.value then Incomplete
    else if !t.value[MANIFEST].ManifestDoc? then Raised
    else if Intact(t.value, t.value[MANIFEST].artifacts) then Verified
    else Degraded
  }

  // -------------------------------------------------------------------------
  // The operations on the directory
  // -------------------------------------------------------------------------

  class EvidenceStore {
    const data: Tree
    var package: Option<Tree>

    constructor (data: Tree)
      ensures this.data == data && package == None
    {
      this.data := data;
      package := None;
    }

    /** `_copy_artifacts` */
    method CopyArtifacts(chain: seq<Stage>) returns (copied: seq<(Path, Path)>)
      requires package.Some?
      modifies this`package
      ensures package.Some?
      ensures Copying(package.value, copied) == CopyChain(data, Copying(old(package.value), []), chain)
    {
      var tree := package.value;
      copied := [];
      for s := 0 to |chain|
        invariant CopyChain(data, Copying(tree, copied), chain[s..])
               == CopyChain(data, Copying(package.value, []), chain)
      {
        var milestone, rels := chain[s].milestone, chain[s].artifacts;
        ghost var before := Copying(tree, copied);
        for i := 0 to |rels|
          invariant CopyStage(data, Copying(tree, copied), milestone, rels[i..])
                 == CopyStage(data, before, milestone, rels)
        {
          var rel := rels[i];
          assert rels[i..][1..] == rels[i + 1..];
          if rel != [] && rel in data {
            var dst := Target(milestone, rel);
            if dst !in tree { tree := tree[dst := data[rel]]; }
            copied := copied + [(dst, rel)];
          }
        }
        assert chain[s..][1..] == chain[s + 1..];
      }
      package := Some(tree);
    }

    /** The manifest loop: every file but the manifest itself, in any order. */
    method ListArtifacts(tree: Tree, copied: seq<(Path, Path)>) returns (artifacts: seq<Entry>)
      ensures forall k | 0 <= k < |artifacts| ::
                && artifacts[k].path in tree && artifacts[k].path != MANIFEST
                && artifacts[k].sha256 == Sha256(tree[artifacts[k].path])
                && artifacts[k].copiedFrom == LastSource(copied, artifacts[k].path)
      ensures forall p | p in tree && p != MANIFEST :: Listed(artifacts, p)
    {
      artifacts := [];
      var rest := tree.Keys;
      while rest != {}
        invariant rest <= tree.Keys
        invariant forall k | 0 <= k < |artifacts| ::
                    && artifacts[k].path in tree && artifacts[k].path != MANIFEST
                    && artifacts[k].sha256 == Sha256(tree[artifacts[k].path])
                    && artifacts[k].copiedFrom == LastSource(copied, artifacts[k].path)
        invariant forall p | p in tree && p !in rest && p != MANIFEST :: Listed(artifacts, p)
        decreases |rest|
      {
        var p :| p in rest;
        rest := rest - {p};
        if p != MANIFEST {
          ghost var before := artifacts;
          artifacts := artifacts + [Entry(p, Sha256(tree[p]), LastSource(copied, p))];
          forall q | Listed(before, q) ensures Listed(artifacts, q) {
            var k :| 0 <= k < |before| && before[k].path == q;
            assert artifacts[k].path == q;
          }
          assert artifacts[|before|].path == p;
        }
      }
    }

    /** `build_final_evidence`: empty the directory, write the generated files, copy the
        artifacts, add the scan result, then freeze.  The generated files have the given
        one-component names. */
    method Build(generated: Tree, chain: seq<Stage>, security: Content, layout: string)
      requires forall p | p in generated :: |p| == 1 && p != MANIFEST && p != DIGEST
      modifies this`package
      ensures package.Some? && Frozen(package.value)
      ensures var c := CopyChain(data, Copying(generated, []), chain);
              package.value - {MANIFEST, DIGEST} == c.tree[["security.json"] := security]
              && forall k | 0 <= k < |package.value[MANIFEST].artifacts| ::
                   package.value[MANIFEST].artifacts[k].copiedFrom
                   == LastSource(c.copied, package.value[MANIFEST].artifacts[k].path)
    {
      package := Some(generated);
      var copied := CopyArtifacts(chain);
      ChainTargets(data, generated, chain);
      var tree := package.value[["security.json"] := security];
      assert MANIFEST !in tree && DIGEST !in tree;
      var artifacts := ListArtifacts(tree, copied);
      var manifest := ManifestDoc(artifacts, layout);
      var frozen := tree[MANIFEST := manifest][DIGEST := DigestLine(Sha256(manifest), "\n")];
      package := Some(frozen);
      assert frozen - {MANIFEST, DIGEST} == tree;
    }

    /** `verify_frozen` */
    method Verify() returns (r: Report)
      ensures r.status == Verdict(package)
      ensures r.status in {Degraded, Verified} ==>
        var t, artifacts := package.value, package.value[MANIFEST].artifacts;
        && (forall p :: p in r.missing <==> Listed(artifacts, p) && p !in t)
        && (forall p :: p in r.modified <==> exists k :: 0 <= k < |artifacts| && artifacts[k].path == p && p in t
                                                        && Sha256(t[p]) != artifacts[k].sha256)
        && (forall p :: p in r.extra <==> p in t && !Ignored(p) && !Listed(artifacts, p))
        && (r.manifestModified <==> Recorded(t[DIGEST]) != Some(Sha256(t[MANIFEST])))
    {
      if package.None? { return Report(NotFound, [], [], [], false); }
      var t := package.value;
      if MANIFEST !in t || DIGEST !in t { return Report(Incomplete, [], [], [], false); }
      if !t[MANIFEST].ManifestDoc? { return Report(Raised, [], [], [], false); }
      var artifacts := t[MANIFEST].artifacts;
      var missing, modified, listed := CheckListed(t, artifacts);
      var extra := FindExtra(t, listed);
      var manifestModified := Recorded(t[DIGEST]) != Some(Sha256(t[MANIFEST]));
      assert missing != [] ==> missing[0] in missing;
      assert modified != [] ==> modified[0] in modified;
      assert extra != [] ==> extra[0] in extra;
      if missing != [] || modified != [] || extra != [] || manifestModified {
        r := Report(Degraded, missing, modified, extra, manifestModified);
      } else {
        forall k | 0 <= k < |artifacts| ensures EntryHolds(t, artifacts[k]) {
          assert artifacts[k].path !in missing && artifacts[k].path !in modified;
          assert Listed(artifacts, artifacts[k].path);
        }
        r := Report(Verified, [], [], [], false);
      }
    }

    method CheckListed(t: Tree, artifacts: seq<Entry>)
      returns (missing: seq<Path>, modified: seq<Path>, listed: set<Path>)
      ensures forall p :: p in missing <==> Listed(artifacts, p) && p !in t
      ensures forall p :: p in modified <==> exists k :: 0 <= k < |artifacts| && artifacts[k].path == p && p in t
                                                        && Sha256(t[p]) != artifacts[k].sha256
      ensures forall p :: p in listed <==> Listed(artifacts, p)
    {
      missing, modified, listed := [], [], {};
      for i := 0 to |artifacts|
        invariant forall p :: p in missing <==> p !in t && exists k :: 0 <= k < i && artifacts[k].path == p
        invariant forall p :: p in modified <==> exists k :: 0 <= k < i && artifacts[k].path == p && p in t
                                                            && Sha256(t[p]) != artifacts[k].sha256
        invariant forall p :: p in listed <==> exists k :: 0 <= k < i && artifacts[k].path == p
      {
        var e := artifacts[i];
        listed := listed + {e.path};
        if e.path !in t {
          missing := missing + [e.path];
        } else if Sha256(t[e.path]) != e.sha256 {
          modified := modified + [e.path];
        }
      }
    }

    method FindExtra(t: Tree, listed: set<Path>) returns (extra: seq<Path>)
      ensures forall p :: p in extra <==> p in t && !Ignored(p) && p !in listed
    {
      extra := [];
      var rest := t.Keys;
      while rest != {}
        invariant rest <= t.Keys
        invariant forall p :: p in extra <==> p in t && p !in rest && !Ignored(p) && p !in listed
        decreases |rest|
      {
        var p :| p in rest;
        rest := rest - {p};
        if !Ignored(p) && p !in listed { extra := extra + [p]; }
      }
    }
  }

  // -------------------------------------------------------------------------
  // Freezing and verifying agree
  // -------------------------------------------------------------------------

  /** What `build_final_evidence` leaves: every other file listed with its digest, and the
      digest of the manifest beside it. */
  ghost predicate Frozen(t: Tree) {
    && MANIFEST in t && DIGEST in t && t[MANIFEST].ManifestDoc?
    && Recorded(t[DIGEST]) == Some(Sha256(t[MANIFEST]))
    && var artifacts := t[MANIFEST].artifacts;
       && (forall k | 0 <= k < |artifacts| ::
             EntryHolds(t, artifacts[k]) && artifacts[k].path != MANIFEST && artifacts[k].path != DIGEST)
       && (forall p | p in t && p != MANIFEST && p != DIGEST :: Listed(artifacts, p))
  }

  /** The part of a tree the manifest answers for: listed files, and every file whose name
      is not one of the two ignored ones. */
  ghost function Answered(t: Tree, artifacts: seq<Entry>): Tree {
    map p | p in t && (Listed(artifacts, p) || !Ignored(p)) :: t[p]
  }

  /** Right after the freeze the package verifies. */
  lemma {:induction false} FrozenVerifies(t: Tree)
    requires Frozen(t)
    ensures Verdict(Some(t)) == Verified
  {
  }

  /** Later, with manifest and digest file unchanged, it verifies exactly when the tree
      equals the frozen one, unlisted files of the two ignored names aside. */
  lemma {:induction false} VerifiedExactly(frozen: Tree, t: Tree)
    requires Frozen(frozen) && MANIFEST in t && DIGEST in t
    requires t[MANIFEST] == frozen[MANIFEST] && t[DIGEST] == frozen[DIGEST]
    ensures Verdict(Some(t)) == Verified
       <==> Answered(t, frozen[MANIFEST].artifacts) == Answered(frozen, frozen[MANIFEST].artifacts)
  {
    var artifacts := frozen[MANIFEST].artifacts;
    var a, b := Answered(t, artifacts), Answered(frozen, artifacts);
    if Verdict(Some(t)) == Verified {
      forall p | p in a || p in b ensures p in a && p in b && a[p] == b[p] {
        assert Listed(artifacts, p);
        var k :| 0 <= k < |artifacts| && artifacts[k].path == p;
        assert EntryHolds(t, artifacts[k]) && EntryHolds(frozen, artifacts[k]);
      }
      assert a == b;
    }
    if a == b {
      forall k | 0 <= k < |artifacts| ensures EntryHolds(t, artifacts[k]) {
        assert EntryHolds(frozen, artifacts[k]) && Listed(artifacts, artifacts[k].path);
        assert artifacts[k].path in b;
        assert artifacts[k].path in a;
      }
      forall p | p in t && !Ignored(p) ensures Listed(artifacts, p) {
        assert p in a;
        assert p in b;
      }
    }
  }

  /** A changed manifest under an unchanged digest file is always detected. */
  lemma {:induction false} ManifestChangeDetected(frozen: Tree, t: Tree)
    requires Frozen(frozen) && MANIFEST in t && DIGEST in t
    requires t[DIGEST] == frozen[DIGEST] && t[MANIFEST] != frozen[MANIFEST]
    ensures Verdict(Some(t)) in {Degraded, Raised}
  {
  }

  // -------------------------------------------------------------------------
  // What a copied artifact holds and what the manifest says it came from
  // -------------------------------------------------------------------------

  /** Every pair copied so far names a data file, and its target holds the first of them. */
  ghost predicate CopiesFirst(data: Tree, start: Tree, c: Copying) {
    && (forall k | 0 <= k < |c.copied| :: c.copied[k].1 in data && |c.copied[k].0| == 3 && c.copied[k].0 in c.tree)
    && (forall p :: p in c.tree <==> p in start || FirstSource(c.copied, p).Some?)
    && (forall p | p in start :: p in c.tree && c.tree[p] == start[p])
    && (forall p | p in c.tree && p !in start ::
          var first := FirstSource(c.copied, p);
          first.Some? && first.value in data && c.tree[p] == data[first.value])
  }

  lemma {:induction false} FirstSnoc(copied: seq<(Path, Path)>, x: (Path, Path), dst: Path)
    ensures FirstSource(copied + [x], dst)
         == if FirstSource(copied, dst).Some? then FirstSource(copied, dst)
            else if x.0 == dst then Some(x.1) else None
  {
    if copied == [] {
      assert copied + [x] == [x];
    } else {
      assert (copied + [x])[1..] == copied[1..] + [x];
      FirstSnoc(copied[1..], x, dst);
    }
  }

  lemma {:induction false} CopyOneFirst(data: Tree, start: Tree, c: Copying, milestone: string, rel: Path)
    requires CopiesFirst(data, start, c)
    ensures CopiesFirst(data, start, CopyOne(data, c, milestone, rel))
  {
    if rel != [] && rel in data {
      var x := (Target(milestone, rel), rel);
      forall p ensures FirstSource(c.copied + [x], p)
                    == if FirstSource(c.copied, p).Some? then FirstSource(c.copied, p)
                       else if x.0 == p then Some(x.1) else None
      {
        FirstSnoc(c.copied, x, p);
      }
    }
  }

  lemma {:induction false} CopyStageFirst(data: Tree, start: Tree, c: Copying, milestone: string, rels: seq<Path>)
    requires CopiesFirst(data, start, c)
    ensures CopiesFirst(data, start, CopyStage(data, c, milestone, rels))
    decreases |rels|
  {
    if rels != [] {
      CopyOneFirst(data, start, c, milestone, rels[0]);
      CopyStageFirst(data, start, CopyOne(data, c, milestone, rels[0]), milestone, rels[1..]);
    }
  }

  lemma {:induction false} CopyChainFirst(data: Tree, start: Tree, c: Copying, chain: seq<Stage>)
    requires CopiesFirst(data, start, c)
    ensures CopiesFirst(data, start, CopyChain(data, c, chain))
    decreases |chain|
  {
    if chain != [] {
      CopyStageFirst(data, start, c, chain[0].milestone, chain[0].artifacts);
      CopyChainFirst(data, start, CopyStage(data, c, chain[0].milestone, chain[0].artifacts), chain[1..]);
    }
  }

  lemma {:induction false} FirstIsCopied(copied: seq<(Path, Path)>, dst: Path)
    ensures FirstSource(copied, dst).Some? ==>
              exists k :: 0 <= k < |copied| && copied[k] == (dst, FirstSource(copied, dst).value)
  {
    if copied != [] && copied[0].0 != dst && FirstSource(copied, dst).Some? {
      FirstIsCopied(copied[1..], dst);
      var k :| 0 <= k < |copied[1..]| && copied[1..][k] == (dst, FirstSource(copied, dst).value);
      assert copied[k + 1] == (dst, FirstSource(copied, dst).value);
    } else if copied != [] && copied[0].0 == dst {
      assert copied[0] == (dst, FirstSource(copied, dst).value);
    }
  }

  lemma {:induction false} LastIsCopied(copied: seq<(Path, Path)>, dst: Path)
    ensures FirstSource(copied, dst).Some? <==> LastSource(copied, dst).Some?
    ensures LastSource(copied, dst).Some? ==>
              exists k :: 0 <= k < |copied| && copied[k] == (dst, LastSource(copied, dst).value)
  {
    if copied != [] {
      var front, x := copied[..|copied| - 1], copied[|copied| - 1];
      assert copied == front + [x];
      FirstSnoc(front, x, dst);
      if x.0 == dst {
        assert copied[|copied| - 1] == (dst, LastSource(copied, dst).value);
      } else {
        LastIsCopied(front, dst);
        if LastSource(copied, dst).Some? {
          var k :| 0 <= k < |front| && front[k] == (dst, LastSource(copied, dst).value);
          assert copied[k] == front[k];
        }
      }
    }
  }

  /** Copying only adds files three levels deep, so it touches no generated file. */
  lemma {:induction false} ChainTargets(data: Tree, start: Tree, chain: seq<Stage>)
    ensures var c := CopyChain(data, Copying(start, []), chain);
            CopiesFirst(data, start, c) && forall p | p in c.tree && p !in start :: |p| == 3
  {
    CopyChainFirst(data, start, Copying(start, []), chain);
    var c := CopyChain(data, Copying(start, []), chain);
    forall p | p in c.tree && p !in start ensures |p| == 3 { FirstIsCopied(c.copied, p); }
  }

  // -------------------------------------------------------------------------
  // When the recorded sources are truthful
  // -------------------------------------------------------------------------

  /** The artifacts of a stage that name data files, each with its target. */
  function StageArtifacts(data: Tree, milestone: string, rels: seq<Path>): seq<(Path, Path)> {
    if rels == [] then []
    else
      (if rels[0] == [] || rels[0] !in data then [] else [(Target(milestone, rels[0]), rels[0])])
        + StageArtifacts(data, milestone, rels[1..])
  }

  function ChainArtifacts(data: Tree, chain: seq<Stage>): seq<(Path, Path)> {
    if chain == [] then []
    else StageArtifacts(data, chain[0].milestone, chain[0].artifacts) + ChainArtifacts(data, chain[1..])
  }

  /** The first and the last data artifact with this milestone and base name are alike. */
  predicate Agree(data: Tree, artifacts: seq<(Path, Path)>, target: Path) {
    var first, last := FirstSource(artifacts, target), LastSource(artifacts, target);
    first.Some? && last.Some? && first.value in data && last.value in data ==> data[first.value] == data[last.value]
  }

  /** What is recorded as the source of a file has the content of that file. */
  predicate Truthful(data: Tree, content: Content, source: Option<Path>) {
    source.Some? ==> source.value in data && content == data[source.value]
  }

  lemma {:induction false} StageCopied(data: Tree, c: Copying, milestone: string, rels: seq<Path>)
    ensures CopyStage(data, c, milestone, rels).copied == c.copied + StageArtifacts(data, milestone, rels)
    decreases |rels|
  {
    if rels == [] {
      assert c.copied + [] == c.copied;
    } else {
      StageCopied(data, CopyOne(data, c, milestone, rels[0]), milestone, rels[1..]);
      if rels[0] == [] || rels[0] !in data {
        assert StageArtifacts(data, milestone, rels) == StageArtifacts(data, milestone, rels[1..]);
      }
    }
  }

  /** The copy log is the list of data artifacts of the chain. */
  lemma {:induction false} ChainCopied(data: Tree, c: Copying, chain: seq<Stage>)
    ensures CopyChain(data, c, chain).copied == c.copied + ChainArtifacts(data, chain)
    decreases |chain|
  {
    if chain == [] {
      assert c.copied + [] == c.copied;
    } else {
      StageCopied(data, c, chain[0].milestone, chain[0].artifacts);
      ChainCopied(data, CopyStage(data, c, chain[0].milestone, chain[0].artifacts), chain[1..]);
    }
  }

  lemma {:induction false} SourcesOf(data: Tree, start: Tree, chain: seq<Stage>, p: Path)
    requires p !in start
    ensures var c, artifacts := CopyChain(data, Copying(start, []), chain), ChainArtifacts(data, chain);
            && c.copied == artifacts
            && (p in c.tree <==> FirstSource(artifacts, p).Some?)
            && FirstSource(artifacts, p).Some? == LastSource(artifacts, p).Some?
            && (p in c.tree ==>
                  && FirstSource(artifacts, p).value in data && LastSource(artifacts, p).value in data
                  && c.tree[p] == data[FirstSource(artifacts, p).value])
  {
    var c := CopyChain(data, Copying(start, []), chain);
    ChainCopied(data, Copying(start, []), chain);
    assert [] + ChainArtifacts(data, chain) == ChainArtifacts(data, chain);
    ChainTargets(data, start, chain);
    LastIsCopied(c.copied, p);
  }

  /** Every source recorded for a copied file is truthful if and only if, for each target,
      the first and the last data artifact of the chain with that milestone and base name
      have equal contents. */
  lemma {:induction false} CopiedFromExactly(data: Tree, start: Tree, chain: seq<Stage>)
    ensures var c := CopyChain(data, Copying(start, []), chain);
            (forall p | p in c.tree && p !in start :: Truthful(data, c.tree[p], LastSource(c.copied, p)))
            <==> forall p | p !in start :: Agree(data, ChainArtifacts(data, chain), p)
  {
    forall p | p !in start
      ensures var c := CopyChain(data, Copying(start, []), chain);
              (p in c.tree ==> Truthful(data, c.tree[p], LastSource(c.copied, p)))
              <==> Agree(data, ChainArtifacts(data, chain), p)
    {
      SourcesOf(data, start, chain, p);
    }
  }

  /** The same for the manifest of a whole package as `Build` leaves it. */
  lemma {:induction false} ManifestTruthfulExactly(
      data: Tree, generated: Tree, chain: seq<Stage>, security: Content, t: Tree)
    requires forall p | p in generated :: |p| == 1
    requires Frozen(t)
    requires var c := CopyChain(data, Copying(generated, []), chain);
             && t - {MANIFEST, DIGEST} == c.tree[["security.json"] := security]
             && forall k | 0 <= k < |t[MANIFEST].artifacts| ::
                  t[MANIFEST].artifacts[k].copiedFrom == LastSource(c.copied, t[MANIFEST].artifacts[k].path)
    ensures (forall k | 0 <= k < |t[MANIFEST].artifacts| ::
               Truthful(data, t[t[MANIFEST].artifacts[k].path], t[MANIFEST].artifacts[k].copiedFrom))
            <==> forall p | |p| == 3 :: Agree(data, ChainArtifacts(data, chain), p)
  {
    var c, artifacts := CopyChain(data, Copying(generated, []), chain), ChainArtifacts(data, chain);
    var entries := t[MANIFEST].artifacts;
    var all := t - {MANIFEST, DIGEST};
    forall k | 0 <= k < |entries|
      ensures Truthful(data, t[entries[k].path], entries[k].copiedFrom)
           <==> |entries[k].path| == 3 ==> Agree(data, artifacts, entries[k].path)
    {
      var p := entries[k].path;
      assert EntryHolds(t, entries[k]) && p in all && t[p] == all[p];
      if |p| == 3 { SourcesOf(data, generated, chain, p); }
      else { OnlyThreeDeep(data, generated, chain, p); }
    }
    forall p | |p| == 3 && FirstSource(artifacts, p).Some? ensures Listed(entries, p) {
      SourcesOf(data, generated, chain, p);
      assert p in all && p in t;
    }
    if forall k | 0 <= k < |entries| :: Truthful(data, t[entries[k].path], entries[k].copiedFrom) {
      forall p | |p| == 3 ensures Agree(data, artifacts, p) {
        if FirstSource(artifacts, p).Some? {
          var k :| 0 <= k < |entries| && entries[k].path == p;
        }
      }
    }
  }

  lemma {:induction false} OnlyThreeDeep(data: Tree, start: Tree, chain: seq<Stage>, p: Path)
    requires |p| != 3
    ensures LastSource(CopyChain(data, Copying(start, []), chain).copied, p) == None
  {
    ChainTargets(data, start, chain);
    var c := CopyChain(data, Copying(start, []), chain);
    LastIsCopied(c.copied, p);
  }

  /** Two artifacts of one milestone with one base name: the package holds the first and
      says it came from the second. */
  lemma {:induction false} SameNameMisattributed(start: Tree, m: string, name: string, one: Content, two: Content)
    requires Target(m, ["a", name]) !in start && one != two
    ensures var data := map[["a", name] := one, ["b", name] := two];
            var c := CopyChain(data, Copying(start, []), [Stage(m, [["a", name], ["b", name]])]);
            var p := Target(m, ["a", name]);
            p in c.tree && c.tree[p] == one && LastSource(c.copied, p) == Some(["b", name]) && data[["b", name]] != one
  {
    var data: Tree := map[["a", name] := one, ["b", name] := two];
    var a, b: Path := ["a", name], ["b", name];
    var p := Target(m, a);
    assert a != b by { assert a[0] == "a" && b[0] == "b"; }
    var c1 := CopyOne(data, Copying(start, []), m, a);
    var c2 := CopyOne(data, c1, m, b);
    assert Target(m, b) == p;
    assert c1.copied == [(p, a)] && c2.copied == [(p, a), (p, b)];
    assert [a, b][1..] == [b] && [b][1..] == [];
    assert CopyStage(data, Copying(start, []), m, [a, b]) == CopyStage(data, c1, m, [b])
        == CopyStage(data, c2, m, []) == c2;
    var chain := [Stage(m, [a, b])];
    assert chain[1..] == [];
    assert CopyChain(data, Copying(start, []), chain) == CopyChain(data, c2, []) == c2;
  }
}
