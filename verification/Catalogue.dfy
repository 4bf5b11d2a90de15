/** Which stack of a Folder Link owns a file: the Compose manifests whose directory is the
    deepest one containing it. */
module Catalogue {
  import opened Paths

  /** The directory a Compose manifest governs; "" is the root of the link. */
  function Root(compose: Path): Path {
    if Dir(compose) == "." then "" else Dir(compose)
  }

  predicate Covers(root: Path, file: Path) {
    root == "" || file == root || Below(file, root)
  }

  function Depth(root: Path): nat {
    CountSlashes(root) + if root != "" then 1 else 0
  }

  /** Declarative ownership: covering, and no other covering manifest lies deeper. */
  ghost predicate Owns(catalogue: set<Path>, compose: Path, file: Path) {
    && compose in catalogue
    && Covers(Root(compose), file)
    && forall other :: other in catalogue && Covers(Root(other), file) ==> Depth(Root(other)) <= Depth(Root(compose))
  }

  function Members(catalogue: seq<Path>): set<Path> {
    set c | c in catalogue
  }

  /** The members of the list that cover the file at exactly this depth, in list order. */
  function Keep(catalogue: seq<Path>, file: Path, depth: int): seq<Path> {
    if catalogue == [] then []
    else
      var last := catalogue[|catalogue| - 1];
      Keep(catalogue[..|catalogue| - 1], file, depth) +
      if Covers(Root(last), file) && Depth(Root(last)) == depth then [last] else []
  }

  lemma {:induction false} KeepMembers(catalogue: seq<Path>, file: Path, depth: int, c: Path)
    ensures c in Keep(catalogue, file, depth) <==> c in catalogue && Covers(Root(c), file) && Depth(Root(c)) == depth
  {
    if catalogue == [] {
    } else {
      var front := catalogue[..|catalogue| - 1];
      KeepMembers(front, file, depth, c);
      assert catalogue == front + [catalogue[|catalogue| - 1]];
    }
  }

  /** The best depth restarts the result, an equal depth extends it. */
  method ComposePathsForFile(catalogue: seq<Path>, file: Path) returns (result: seq<Path>)
    ensures forall c :: c in result <==> Owns(Members(catalogue), c, file)
    ensures exists depth :: result == Keep(catalogue, file, depth)
  {
    var best: int := -1;
    result := [];
    var n := 0;
    while n < |catalogue|
      invariant 0 <= n <= |catalogue|
      invariant result == Keep(catalogue[..n], file, best)
      invariant forall c :: c in catalogue[..n] && Covers(Root(c), file) ==> Depth(Root(c)) <= best
      invariant best >= 0 ==> result != []
    {
      var compose := catalogue[n];
      assert catalogue[..n + 1] == catalogue[..n] + [compose];
      assert catalogue[..n + 1][..n] == catalogue[..n];
      var root := Root(compose);
      if Covers(root, file) {
        var depth := Depth(root);
        if depth > best {
          forall c ensures c !in Keep(catalogue[..n], file, depth) {
            KeepMembers(catalogue[..n], file, depth, c);
          }
          EmptyOrInhabited(Keep(catalogue[..n], file, depth));
          best := depth;
          result := [];
        }
        if depth == best {
          result := result + [compose];
        }
      }
      n := n + 1;
    }
    assert catalogue[..n] == catalogue;
    forall c ensures c in result <==> Owns(Members(catalogue), c, file) {
      KeepMembers(catalogue, file, best, c);
      if result != [] {
        KeepMembers(catalogue, file, best, result[0]);
      }
    }
  }

  lemma EmptyOrInhabited(s: seq<Path>)
    ensures s == [] || exists c :: c in s
  {
    if s != [] {
      assert s[0] in s;
    }
  }

  /** A file has one owning directory: manifests that share it all sit in that directory. */
  lemma OwnersShareTheirDirectory(catalogue: set<Path>, c: Path, d: Path, file: Path)
    requires Owns(catalogue, c, file) && Owns(catalogue, d, file)
    ensures Root(c) == Root(d)
  {
    var r, s := Root(c), Root(d);
    if r != s && r != "" && s != "" {
      if file == r {
        DeeperHasMoreSlashes(s, r);
      } else if file == s {
        DeeperHasMoreSlashes(r, s);
      } else {
        AncestorsAreComparable(r, s, file);
        if Below(r, s) {
          DeeperHasMoreSlashes(s, r);
        } else {
          DeeperHasMoreSlashes(r, s);
        }
      }
    }
  }

  /** The directory r lies inside s. */
  predicate Inside(r: Path, s: Path) {
    if s == "" then r != "" else Below(r, s)
  }

  lemma CoveringRootsAreNested(r: Path, s: Path, file: Path)
    requires Covers(r, file) && Covers(s, file)
    ensures r == s || Inside(r, s) || Inside(s, r)
    ensures Inside(r, s) ==> Depth(s) < Depth(r)
    ensures Inside(s, r) ==> Depth(r) < Depth(s)
  {
    if r != s && r != "" && s != "" {
      if file != r && file != s { AncestorsAreComparable(r, s, file); }
      if Below(r, s) { DeeperHasMoreSlashes(s, r); }
      if Below(s, r) { DeeperHasMoreSlashes(r, s); }
    }
  }

  /** Ownership without counting: the manifest's directory holds the file, and no manifest's directory that holds it
      lies inside that one. */
  lemma OwnerIsNearest(catalogue: set<Path>, c: Path, file: Path)
    ensures Owns(catalogue, c, file) <==>
            && c in catalogue && Covers(Root(c), file)
            && forall other :: other in catalogue && Covers(Root(other), file) ==> !Inside(Root(other), Root(c))
  {
    hide Depth, Inside, Covers, Root;
    forall other | c in catalogue && Covers(Root(c), file) && other in catalogue && Covers(Root(other), file)
      ensures Inside(Root(other), Root(c)) <==> Depth(Root(other)) > Depth(Root(c))
    {
      CoveringRootsAreNested(Root(other), Root(c), file);
    }
  }

  /** A backup manifest keeps only the manifests of its own files. Nothing is lost: a file whose
      owners survive the cut has the same owners in the smaller catalogue. */
  lemma CutKeepsOwners(catalogue: set<Path>, cut: set<Path>, file: Path, c: Path)
    requires cut <= catalogue
    requires forall d :: Owns(catalogue, d, file) ==> d in cut
    requires exists d :: Owns(catalogue, d, file)
    ensures Owns(cut, c, file) <==> Owns(catalogue, c, file)
  {
    var d :| Owns(catalogue, d, file);
    assert d in cut && Owns(cut, d, file);
  }

  /** Some manifest covers the file exactly when some manifest owns it. */
  lemma {:induction false} CoveredIsOwned(catalogue: set<Path>, file: Path)
    ensures (exists c :: c in catalogue && Covers(Root(c), file)) <==> exists c :: Owns(catalogue, c, file)
    decreases |catalogue|
  {
    if c :| c in catalogue && Covers(Root(c), file) {
      var rest := catalogue - {c};
      CoveredIsOwned(rest, file);
      if d :| Owns(rest, d, file) {
        assert Owns(catalogue, if Depth(Root(c)) <= Depth(Root(d)) then d else c, file);
      } else {
        assert Owns(catalogue, c, file);
      }
    }
  }
}
