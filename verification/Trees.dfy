/** Trees of files: one generation, a fork workspace, or the working tree.
    Metadata is not part of a tree; two trees are the same generation exactly
    when they are equal. */
module Trees {
  import opened Paths

  datatype Node = Dir | Regular(bytes: string) | Symlink(target: string)

  type Tree = map<Path, Node>

  /** Every directory on the way to an entry is there, as a directory; the
      root itself is not an entry. */
  ghost predicate WellFormed(t: Tree) {
    [] !in t && forall p, a :: p in t && ProperAncestor(a, p) ==> a in t && t[a] == Dir
  }

  function Get(t: Tree, p: Path): Option<Node> {
    if p in t then Some(t[p]) else None
  }

  /** `.git` itself or anything beneath it, at the root only. */
  predicate IsGitInternal(p: Path) {
    p != [] && p[0] == ".git"
  }

  /** `.git` in the repository root and everything beneath it, and no other `.git`. */
  lemma GitIsInTheRoot(p: Path)
    ensures IsGitInternal(p) <==> StartsWith(p, [".git"])
  {
    if IsGitInternal(p) {
      assert p == [".git"] + p[1..];
    }
  }

  lemma TreesAgree(s: Tree, t: Tree)
    requires forall p :: Get(s, p) == Get(t, p)
    ensures s == t
  {
    forall p ensures p in s <==> p in t { assert Get(s, p) == Get(t, p); }
    forall p | p in s ensures s[p] == t[p] { assert Get(s, p) == Get(t, p); }
  }

  /** `dst` with everything at and beneath `root` taken from `src` instead. */
  function Replace(dst: Tree, src: Tree, root: Path): Tree {
    (map p | p in dst && !StartsWith(p, root) :: dst[p]) + (map p | p in src && StartsWith(p, root) :: src[p])
  }

  /** The same for several roots at once. */
  function Overlay(dst: Tree, src: Tree, roots: set<Path>): Tree {
    (map p | p in dst && !Below(p, roots) :: dst[p]) + (map p | p in src && Below(p, roots) :: src[p])
  }

  predicate Below(p: Path, roots: set<Path>) {
    exists r :: r in roots && StartsWith(p, r)
  }

  ghost predicate Antichain(roots: set<Path>) {
    forall r, s :: r in roots && s in roots && StartsWith(r, s) ==> r == s
  }

  /** All the directories on the way to `p` are in place. */
  ghost predicate ParentsInPlace(t: Tree, p: Path) {
    forall a :: ProperAncestor(a, p) ==> Get(t, a) == Some(Dir)
  }

  function ParentSet(p: Path): (s: set<Path>)
    ensures forall a :: a in s <==> ProperAncestor(a, p)
  {
    var s := set k | 1 <= k < |p| :: p[..k];
    assert forall a :: ProperAncestor(a, p) ==> a == p[..|a|] && 1 <= |a| < |p|;
    s
  }

  /** `create_dir_all` of the directory `p` is in. */
  function MakeParents(t: Tree, p: Path): Tree {
    (map a | a in ParentSet(p) :: Dir) + t
  }

  lemma ReplaceAt(dst: Tree, src: Tree, root: Path, p: Path)
    ensures Get(Replace(dst, src, root), p) == Get(if StartsWith(p, root) then src else dst, p)
  {}

  lemma OverlayAt(dst: Tree, src: Tree, roots: set<Path>, p: Path)
    ensures Get(Overlay(dst, src, roots), p) == Get(if Below(p, roots) then src else dst, p)
  {}

  /** Nothing hangs below an absent path or a leaf. */
  lemma NothingBelowLeaves(t: Tree, p: Path, q: Path)
    requires WellFormed(t) && p != [] && StartsWith(q, p) && q != p
    ensures Get(t, p) != Some(Dir) ==> q !in t
  {
    assert ProperAncestor(p, q);
  }

  lemma GitIsOneSubtree(p: Path, q: Path)
    requires p != [] && StartsWith(q, p)
    ensures IsGitInternal(p) <==> IsGitInternal(q)
  {
    assert q[0] == p[0];
  }

  /** Overlaying one more root is one more replacement, when no root is
      beneath another. */
  lemma OverlayOneMore(dst: Tree, src: Tree, roots: set<Path>, r: Path)
    ensures Replace(Overlay(dst, src, roots), src, r) == Overlay(dst, src, roots + {r})
  {
    var a, b := Replace(Overlay(dst, src, roots), src, r), Overlay(dst, src, roots + {r});
    forall p ensures Get(a, p) == Get(b, p) {
      ReplaceAt(Overlay(dst, src, roots), src, r, p);
      OverlayAt(dst, src, roots, p);
      OverlayAt(dst, src, roots + {r}, p);
      if StartsWith(p, r) {
        assert r in roots + {r};
      } else if Below(p, roots) {
        var s :| s in roots && StartsWith(p, s);
        assert s in roots + {r};
      }
    }
    TreesAgree(a, b);
  }

  lemma OverlayNothing(dst: Tree, src: Tree)
    ensures Overlay(dst, src, {}) == dst
  {}

  lemma MakeParentsIsIdle(t: Tree, p: Path)
    requires ParentsInPlace(t, p)
    ensures MakeParents(t, p) == t
  {
    forall a | a in ParentSet(p) ensures a in t && t[a] == Dir {
      assert Get(t, a) == Some(Dir);
    }
  }

  /** Whole subtrees from a second well-formed tree, each put where its parents
      already are, leave a well-formed tree. */
  lemma OverlayIsWellFormed(dst: Tree, src: Tree, roots: set<Path>)
    requires WellFormed(dst) && WellFormed(src)
    requires forall r :: r in roots && r in src ==> ParentsInPlace(dst, r)
    requires Antichain(roots) && [] !in roots
    ensures WellFormed(Overlay(dst, src, roots))
  {
    var t := Overlay(dst, src, roots);
    forall p, a | p in t && ProperAncestor(a, p) ensures a in t && t[a] == Dir {
      OverlayAt(dst, src, roots, p);
      OverlayAt(dst, src, roots, a);
      if Below(p, roots) {
        var r :| r in roots && StartsWith(p, r);
        AncestorsAreComparable(a, r, p);
        if StartsWith(a, r) {
          assert Below(a, roots);
        } else {
          assert ProperAncestor(a, r);
          assert p == r || ProperAncestor(r, p);
          assert r in src;
          assert Get(dst, a) == Some(Dir);
          if Below(a, roots) {
            var s :| s in roots && StartsWith(a, s);
            assert StartsWith(r, s);
          }
        }
      } else if Below(a, roots) {
        var s :| s in roots && StartsWith(a, s);
        assert StartsWith(p, s);
      }
    }
  }
}
