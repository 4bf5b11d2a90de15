/** Folder Links on one host, and links into one repository, may be nested as long as they own different files. */
module LinkOwnership {
  import opened Paths

  /** The root is the folder on the host, or the folder in the repository, where "." is the whole tree; composeDirs are
      the directories of the selected manifests, "." for one at the root. */
  datatype LinkSpec = LinkSpec(root: Path, all: bool, composeDirs: set<Path>)

  datatype Ownership = Ownership(path: Path, recursive: bool)

  /** A cleaned relative path: "." or a path without a leading slash or dot component. */
  predicate Clean(p: Path) {
    p == "." || (p != "" && !Below(p, ".") && !Below(p, ""))
  }

  predicate CleanLink(l: LinkSpec) {
    Clean(l.root) && forall d :: d in l.composeDirs ==> Clean(d)
  }

  function JoinPath(root: Path, rel: Path): Path {
    if root == "." then rel else if rel == "." then root else root + "/" + rel
  }

  function OwnershipOf(l: LinkSpec, d: Path): Ownership {
    if d == "." then Ownership(l.root, false) else Ownership(JoinPath(l.root, d), true)
  }

  function Ownerships(l: LinkSpec): set<Ownership> {
    if l.all then {Ownership(l.root, true)}
    else set d | d in l.composeDirs :: OwnershipOf(l, d)
  }

  predicate OwnershipsOverlap(l: Ownership, r: Ownership) {
    || l.path == r.path
    || (l.recursive && Below(r.path, l.path))
    || (r.recursive && Below(l.path, r.path))
  }

  predicate PathsOverlap(l: Path, r: Path) {
    l == "." || r == "." || l == r || Below(l, r) || Below(r, l)
  }

  ghost predicate LinksOverlap(l: LinkSpec, r: LinkSpec) {
    exists a, b :: a in Ownerships(l) && b in Ownerships(r) && OwnershipsOverlap(a, b)
  }

  method BindingOwnershipsOverlap(l: LinkSpec, r: LinkSpec) returns (overlap: bool)
    ensures overlap <==> LinksOverlap(l, r)
  {
    hide Ownerships, OwnershipsOverlap;
    var left := Ownerships(l);
    while left != {}
      invariant left <= Ownerships(l)
      invariant forall a, b :: a in Ownerships(l) && a !in left && b in Ownerships(r) ==> !OwnershipsOverlap(a, b)
    {
      var a :| a in left;
      left := left - {a};
      var right := Ownerships(r);
      while right != {}
        invariant right <= Ownerships(r)
        invariant forall b :: b in Ownerships(r) && b !in right ==> !OwnershipsOverlap(a, b)
      {
        var b :| b in right;
        right := right - {b};
        if OwnershipsOverlap(a, b) { return true; }
      }
    }
    return false;
  }

  /** The check made before a link is saved, for links without include patterns. */
  ghost predicate Accepted(l: LinkSpec, r: LinkSpec) {
    PathsOverlap(l.root, r.root) ==> !LinksOverlap(l, r)
  }

  // ----- what a link really takes -----

  predicate NoSlashAfter(f: Path, k: nat) {
    forall i :: k <= i < |f| ==> f[i] != '/'
  }

  /** The policy on a path relative to the link: everything, or what lies under a selected manifest's directory,
      where a manifest at the root takes root files only. */
  predicate SelectsRelative(l: LinkSpec, rel: Path) {
    l.all || exists d :: d in l.composeDirs && SelectedBy(d, rel)
  }

  ghost predicate SelectsFile(l: LinkSpec, f: Path) {
    exists rel :: rel != "" && rel != "." && f == JoinPath(l.root, rel) && SelectsRelative(l, rel)
  }

  /** f lies strictly below the owned directory, directly in it when the ownership is not recursive. */
  predicate Governs(o: Ownership, f: Path) {
    if o.path == "." then o.recursive || NoSlashAfter(f, 0)
    else Below(f, o.path) && (o.recursive || NoSlashAfter(f, |o.path| + 1))
  }

  /** The manifest in directory d of the link selects the file. */
  predicate SelectedBy(d: Path, rel: Path) {
    if d == "." then NoSlashAfter(rel, 0) else rel == d || Below(rel, d)
  }

  lemma DirectoryGoverns(l: LinkSpec, d: Path, rel: Path)
    requires rel != "" && rel != "." && SelectedBy(d, rel)
    ensures var o, f := OwnershipOf(l, d), JoinPath(l.root, rel); Governs(o, f) || f == o.path
  {
    var f := JoinPath(l.root, rel);
    BelowIsIndexed(f, l.root);
    if l.root != "." {
      if d == "." {
        assert forall i :: |l.root| + 1 <= i < |f| ==> f[i] == rel[i - (|l.root| + 1)];
      } else if rel != d {
        assert rel == (d + "/") + rel[|d| + 1..];
        assert f == (l.root + "/") + ((d + "/") + rel[|d| + 1..]);
        assert f == (l.root + "/" + d + "/") + rel[|d| + 1..];
      }
    }
  }

  /** The ownerships describe the selection: a selected file is governed, or is itself the owned directory's path. */
  lemma SelectedIsGoverned(l: LinkSpec, f: Path)
    requires SelectsFile(l, f)
    ensures exists o :: o in Ownerships(l) && (Governs(o, f) || f == o.path)
  {
    hide OwnershipOf, SelectedBy;
    var rel :| rel != "" && rel != "." && f == JoinPath(l.root, rel) && SelectsRelative(l, rel);
    if l.all {
      BelowIsIndexed(f, l.root);
      assert Governs(Ownership(l.root, true), f);
    } else {
      var d :| d in l.composeDirs && SelectedBy(d, rel);
      DirectoryGoverns(l, d, rel);
      assert OwnershipOf(l, d) in Ownerships(l);
    }
  }

  ghost predicate ShareFile(l: LinkSpec, r: LinkSpec, f: Path) {
    (exists a :: a in Ownerships(l) && Governs(a, f)) && exists b :: b in Ownerships(r) && Governs(b, f)
  }

  /** Two ownerships with a file in common overlap, unless one of them is the whole tree. */
  lemma CommonFileMeansOverlap(a: Ownership, b: Ownership, f: Path)
    requires Governs(a, f) && Governs(b, f)
    requires a != Ownership(".", true) && b != Ownership(".", true)
    ensures OwnershipsOverlap(a, b)
  {
    BelowIsIndexed(f, a.path);
    BelowIsIndexed(f, b.path);
    if a.path != "." && b.path != "." {
      AncestorsAreComparable(a.path, b.path, f);
      BelowIsIndexed(a.path, b.path);
      BelowIsIndexed(b.path, a.path);
    }
  }

  predicate WholeTree(l: LinkSpec) {
    l.all && l.root == "."
  }

  lemma OnlyWholeTreeOwnsEverything(l: LinkSpec)
    requires CleanLink(l)
    ensures Ownership(".", true) in Ownerships(l) <==> WholeTree(l)
    ensures forall o :: o in Ownerships(l) ==> Clean(o.path)
  {
    forall o | o in Ownerships(l) ensures Clean(o.path) && (o == Ownership(".", true) ==> WholeTree(l)) {
      if !l.all {
        var d :| d in l.composeDirs && o == OwnershipOf(l, d);
        BelowIsIndexed(o.path, ".");
        BelowIsIndexed(o.path, "");
        BelowIsIndexed(l.root, ".");
        BelowIsIndexed(l.root, "");
      }
    }
  }

  /** Files of unrelated roots are different files. */
  lemma GovernedIsUnderTheRoot(l: LinkSpec, o: Ownership, f: Path)
    requires o in Ownerships(l) && Governs(o, f) && l.root != "."
    ensures Below(f, l.root)
  {
    if !l.all {
      var d :| d in l.composeDirs && o == OwnershipOf(l, d);
      if d != "." {
        assert o.path == (l.root + "/") + d;
        assert l.root + "/" <= o.path <= o.path + "/";
        assert o.path[|l.root|] == '/';
        assert o.path != ".";
      }
    }
  }

  lemma UnrelatedRootsShareNothing(l: LinkSpec, r: LinkSpec, f: Path)
    requires !PathsOverlap(l.root, r.root)
    ensures !ShareFile(l, r, f)
  {
    if ShareFile(l, r, f) {
      var a :| a in Ownerships(l) && Governs(a, f);
      var b :| b in Ownerships(r) && Governs(b, f);
      GovernedIsUnderTheRoot(l, a, f);
      GovernedIsUnderTheRoot(r, b, f);
      AncestorsAreComparable(l.root, r.root, f);
    }
  }

  // ----- accepted links -----

  /** The one gap of the check: a link that takes the whole tree from "." is compared by the prefix "./", which no
      other path has. The folder of a link on its host is never ".", its folder in the repository is by default. */
  predicate Gap(l: LinkSpec, r: LinkSpec) {
    (WholeTree(l) && Ownerships(r) != {}) || (WholeTree(r) && Ownerships(l) != {})
  }

  predicate OwnedPath(l: LinkSpec, f: Path) {
    exists o :: o in Ownerships(l) && o.path == f
  }

  /** Both policies take the file, and it does not bear the name of a directory that one of the links owns. */
  ghost predicate BothSelect(l: LinkSpec, r: LinkSpec, f: Path) {
    SelectsFile(l, f) && SelectsFile(r, f) && !OwnedPath(l, f) && !OwnedPath(r, f)
  }

  lemma {:induction false} LongestPath(os: set<Ownership>) returns (n: nat)
    ensures forall o :: o in os ==> |o.path| <= n
    decreases |os|
  {
    if os == {} {
      n := 0;
    } else {
      var o :| o in os;
      var rest := LongestPath(os - {o});
      n := if |o.path| <= rest then rest else |o.path|;
    }
  }

  /** A name longer than anything the link owns. */
  function LongName(n: nat): (name: string)
    ensures |name| == n + 2 && NoSlashAfter(name, 0)
  {
    seq(n + 2, _ => 'x')
  }

  lemma DirectoryHasFile(l: LinkSpec, d: Path, name: string)
    requires Clean(d) && d in l.composeDirs && OwnershipOf(l, d).path != "." && |name| >= 2 && NoSlashAfter(name, 0)
    ensures SelectsFile(l, OwnershipOf(l, d).path + "/" + name)
  {
    var f := OwnershipOf(l, d).path + "/" + name;
    var rel := if d == "." then name else d + "/" + name;
    assert SelectedBy(d, rel) by {
      if d != "." { assert rel == (d + "/") + name; }
    }
    assert f == JoinPath(l.root, rel) by {
      if d != "." && l.root != "." { assert (l.root + "/" + d) + "/" + name == l.root + "/" + (d + "/" + name); }
    }
    assert SelectsRelative(l, rel);
  }

  /** Every owned directory other than "." holds files that the link selects and does not own by name. */
  lemma OwnedDirectoryHasFiles(l: LinkSpec, o: Ownership) returns (f: Path)
    requires CleanLink(l) && o in Ownerships(l) && o.path != "."
    ensures SelectsFile(l, f) && !OwnedPath(l, f) && f != "" && f != "."
  {
    hide OwnershipOf;
    var n := LongestPath(Ownerships(l));
    var name := LongName(n);
    f := o.path + "/" + name;
    if l.all {
      assert f == JoinPath(l.root, name) && SelectsRelative(l, name);
    } else {
      var d :| d in l.composeDirs && o == OwnershipOf(l, d);
      DirectoryHasFile(l, d, name);
    }
  }

  lemma GapSelectsAFile(l: LinkSpec, r: LinkSpec)
    requires CleanLink(l) && CleanLink(r) && Accepted(l, r)
    requires WholeTree(l) && Ownerships(r) != {}
    ensures exists f :: BothSelect(l, r, f)
  {
    var o :| o in Ownerships(r);
    assert Ownership(".", true) in Ownerships(l);
    assert !OwnershipsOverlap(Ownership(".", true), o);
    var f := OwnedDirectoryHasFiles(r, o);
    assert f == JoinPath(l.root, f) && SelectsRelative(l, f);
    assert BothSelect(l, r, f);
  }

  lemma NoGapSharesNothing(l: LinkSpec, r: LinkSpec, f: Path)
    requires CleanLink(l) && CleanLink(r) && Accepted(l, r) && !Gap(l, r)
    ensures !ShareFile(l, r, f)
  {
    OnlyWholeTreeOwnsEverything(l);
    OnlyWholeTreeOwnsEverything(r);
    if !PathsOverlap(l.root, r.root) {
      UnrelatedRootsShareNothing(l, r, f);
    } else if ShareFile(l, r, f) {
      var a :| a in Ownerships(l) && Governs(a, f);
      var b :| b in Ownerships(r) && Governs(b, f);
      CommonFileMeansOverlap(a, b, f);
    }
  }

  /** Links that pass the check select no file in common, exactly when neither of them takes the whole tree from "."
      while the other owns something. */
  lemma AcceptedLinksAreDisjoint(l: LinkSpec, r: LinkSpec)
    requires CleanLink(l) && CleanLink(r) && Accepted(l, r)
    ensures (forall f :: !BothSelect(l, r, f)) <==> !Gap(l, r)
  {
    if Gap(l, r) {
      if WholeTree(l) && Ownerships(r) != {} {
        GapSelectsAFile(l, r);
      } else {
        GapSelectsAFile(r, l) by { assert Accepted(r, l) by { AcceptedIsSymmetric(l, r); } }
        var f :| BothSelect(r, l, f);
        assert BothSelect(l, r, f);
      }
    } else {
      forall f ensures !BothSelect(l, r, f) {
        if BothSelect(l, r, f) {
          SelectedIsGoverned(l, f);
          SelectedIsGoverned(r, f);
          assert ShareFile(l, r, f);
          NoGapSharesNothing(l, r, f);
        }
      }
    }
  }

  lemma AcceptedIsSymmetric(l: LinkSpec, r: LinkSpec)
    requires Accepted(l, r)
    ensures Accepted(r, l)
  {
    forall a, b | a in Ownerships(r) && b in Ownerships(l) ensures OwnershipsOverlap(a, b) == OwnershipsOverlap(b, a) {
    }
  }

  /** A file deep enough below a path, so that neither link owns it by name. */
  lemma UnownedName(l: LinkSpec, r: LinkSpec) returns (name: string)
    ensures |name| >= 2 && NoSlashAfter(name, 0)
    ensures forall d: Path :: !OwnedPath(l, d + "/" + name) && !OwnedPath(r, d + "/" + name)
    ensures !OwnedPath(l, name) && !OwnedPath(r, name)
  {
    var m := LongestPath(Ownerships(l));
    var n := LongestPath(Ownerships(r));
    name := LongName(m + n);
  }

  /** A link selects what lies directly in a path it owns. */
  lemma SelectsDirectlyBelow(l: LinkSpec, o: Ownership, name: string)
    requires CleanLink(l) && o in Ownerships(l) && |name| >= 2 && NoSlashAfter(name, 0)
    ensures SelectsFile(l, if o.path == "." then name else o.path + "/" + name)
  {
    hide OwnershipOf;
    OnlyWholeTreeOwnsEverything(l);
    if l.all {
      assert SelectsRelative(l, name);
      assert (if o.path == "." then name else o.path + "/" + name) == JoinPath(l.root, name);
    } else {
      var d :| d in l.composeDirs && o == OwnershipOf(l, d);
      if o.path != "." {
        DirectoryHasFile(l, d, name);
      } else {
        RootDirectory(l, d);
        assert SelectedBy(d, name) && SelectsRelative(l, name) && name == JoinPath(l.root, name);
      }
    }
  }

  lemma RootDirectory(l: LinkSpec, d: Path)
    requires CleanLink(l) && d in l.composeDirs && OwnershipOf(l, d).path == "."
    ensures d == "." && l.root == "."
  {
    BelowIsIndexed(OwnershipOf(l, d).path, l.root);
  }

  /** And everything below one it owns with all its directories. */
  lemma SelectsDeepBelow(l: LinkSpec, o: Ownership, f: Path)
    requires CleanLink(l) && o in Ownerships(l) && o.recursive && o.path != "."
    requires Below(f, o.path) && |f| >= |o.path| + 3
    ensures SelectsFile(l, f)
  {
    BelowIsIndexed(f, o.path);
    if l.all {
      var rel := f[|l.root| + 1..];
      assert f == JoinPath(l.root, rel) && SelectsRelative(l, rel);
    } else {
      var d :| d in l.composeDirs && o == OwnershipOf(l, d);
      var rel := d + f[|o.path|..];
      assert f == o.path + f[|o.path|..];
      BelowIsIndexed(rel, d);
      assert f == JoinPath(l.root, rel);
      assert SelectedBy(d, rel) && SelectsRelative(l, rel);
    }
  }

  /** The check refuses no pair for nothing: two overlapping ownerships hold a file that both links select. */
  lemma OverlapSelectsAFile(l: LinkSpec, r: LinkSpec, a: Ownership, b: Ownership)
    requires CleanLink(l) && CleanLink(r) && a in Ownerships(l) && b in Ownerships(r) && OwnershipsOverlap(a, b)
    ensures exists f :: BothSelect(l, r, f)
  {
    OnlyWholeTreeOwnsEverything(l);
    OnlyWholeTreeOwnsEverything(r);
    var name := UnownedName(l, r);
    BelowIsIndexed(a.path, b.path);
    BelowIsIndexed(b.path, a.path);
    var low := if |a.path| < |b.path| then b.path else a.path;
    var f := if low == "." then name else low + "/" + name;
    BelowIsIndexed(f, a.path);
    BelowIsIndexed(f, b.path);
    if a.path == low { SelectsDirectlyBelow(l, a, name); } else { SelectsDeepBelow(l, a, f); }
    if b.path == low { SelectsDirectlyBelow(r, b, name); } else { SelectsDeepBelow(r, b, f); }
    assert BothSelect(l, r, f);
  }

  /** The check is exact: two links pass it, outside its one gap, if and only if they select no file in common. */
  lemma AcceptedExactlyWhenDisjoint(l: LinkSpec, r: LinkSpec)
    requires CleanLink(l) && CleanLink(r)
    ensures (forall f :: !BothSelect(l, r, f)) <==> Accepted(l, r) && !Gap(l, r)
  {
    if Accepted(l, r) {
      AcceptedLinksAreDisjoint(l, r);
    } else {
      var a, b :| a in Ownerships(l) && b in Ownerships(r) && OwnershipsOverlap(a, b);
      OverlapSelectsAFile(l, r, a, b);
    }
  }

  /** On a host no link starts at ".", so there accepted links never select a file in common. */
  lemma HostLinksAreDisjoint(l: LinkSpec, r: LinkSpec, f: Path)
    requires CleanLink(l) && CleanLink(r) && Accepted(l, r)
    requires l.root != "." && r.root != "."
    ensures !BothSelect(l, r, f)
  {
    AcceptedLinksAreDisjoint(l, r);
  }
}
