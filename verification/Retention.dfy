/** Registry retention: what is reachable from the protected tags stays, the rest may be deleted. */
module Retention {
  import opened Common
  import opened Paths

  type Digest = string
  type Tag = string

  /** The digests an image index lists under `manifests`, and the one a manifest names as its `subject`. */
  datatype Manifest = Manifest(manifests: seq<Digest>, subject: seq<Digest>)

  type Registry = map<Digest, Manifest>

  datatype Version = Version(name: Digest, createdAt: string, tags: seq<Tag>)

  // ----- reachability -----

  predicate IsSha256(d: Digest) {
    "sha256:" <= d
  }

  function Children(m: Manifest): set<Digest> {
    set d | d in m.manifests + m.subject && IsSha256(d)
  }

  predicate Refers(registry: Registry, d: Digest, c: Digest) {
    d in registry && (c in registry[d].manifests || c in registry[d].subject) && "sha256:" <= c
  }

  /** Starts at a root and follows descriptors. */
  ghost predicate IsTrail(registry: Registry, roots: set<Digest>, t: seq<Digest>) {
    && t != [] && t[0] in roots
    && forall i, j :: 0 <= i < j < |t| && j == i + 1 ==> Refers(registry, t[i], t[j])
  }

  ghost predicate Reachable(registry: Registry, roots: set<Digest>, d: Digest) {
    exists t :: IsTrail(registry, roots, t) && t[|t| - 1] == d
  }

  datatype Walked = Closure(digests: set<Digest>) | CannotRead(digest: Digest)

  lemma RootIsReachable(registry: Registry, roots: set<Digest>, d: Digest)
    requires d in roots
    ensures Reachable(registry, roots, d)
  {
    assert IsTrail(registry, roots, [d]);
  }

  lemma ChildIsReachable(registry: Registry, roots: set<Digest>, d: Digest, c: Digest)
    requires Reachable(registry, roots, d) && d in registry && c in Children(registry[d])
    ensures Reachable(registry, roots, c)
  {
    var t :| IsTrail(registry, roots, t) && t[|t| - 1] == d;
    var u := t + [c];
    assert IsTrail(registry, roots, u) && u[|u| - 1] == c;
  }

  lemma {:induction false} ClosedHoldsTrails(registry: Registry, roots: set<Digest>, s: set<Digest>, t: seq<Digest>)
    requires roots <= s && forall d :: d in s && d in registry ==> Children(registry[d]) <= s
    requires IsTrail(registry, roots, t)
    ensures t[|t| - 1] in s
    decreases |t|
  {
    if |t| == 1 {
    } else {
      var u := t[..|t| - 1];
      assert IsTrail(registry, roots, u);
      ClosedHoldsTrails(registry, roots, s, u);
    }
  }

  /** The worklist ends on every graph, cyclic or not, with exactly the reachable digests; it gives up exactly when
      one of them has no readable manifest. */
  method ReachableDigests(registry: Registry, roots: seq<Digest>) returns (r: Walked)
    ensures r.Closure? ==> forall d :: d in r.digests <==> Reachable(registry, SetOf(roots), d)
    ensures r.CannotRead? ==> r.digest !in registry && Reachable(registry, SetOf(roots), r.digest)
    ensures r.Closure? <==> forall d :: Reachable(registry, SetOf(roots), d) ==> d in registry
  {
    hide Reachable;
    ghost var start := SetOf(roots);
    var reachable: set<Digest> := {};
    var pending := roots;
    forall d | d in start ensures Reachable(registry, start, d) { RootIsReachable(registry, start, d); }
    while pending != []
      invariant reachable <= registry.Keys
      invariant forall d :: d in reachable || d in pending ==> Reachable(registry, start, d)
      invariant forall d :: d in start ==> d in reachable || d in pending
      invariant forall d, c :: d in reachable && c in Children(registry[d]) ==> c in reachable || c in pending
      decreases registry.Keys - reachable, |pending|
    {
      var digest := pending[|pending| - 1];
      assert pending == pending[..|pending| - 1] + [digest];
      pending := pending[..|pending| - 1];
      if digest in reachable { continue; }
      if digest !in registry { return CannotRead(digest); }
      reachable := reachable + {digest};
      var descriptors := registry[digest].manifests + registry[digest].subject;
      forall c | c in Children(registry[digest]) ensures Reachable(registry, start, c) {
        ChildIsReachable(registry, start, digest, c);
      }
      var children := NewChildren(descriptors, reachable);
      pending := pending + children;
    }
    forall d ensures d in reachable <==> Reachable(registry, start, d) {
      ClosedHoldsReachable(registry, start, reachable, d);
    }
    r := Closure(reachable);
  }

  function SetOf(ds: seq<Digest>): set<Digest> {
    set d | d in ds
  }

  lemma ClosedHoldsReachable(registry: Registry, roots: set<Digest>, s: set<Digest>, d: Digest)
    requires roots <= s && forall e :: e in s && e in registry ==> Children(registry[e]) <= s
    ensures Reachable(registry, roots, d) ==> d in s
  {
    if Reachable(registry, roots, d) {
      var t :| IsTrail(registry, roots, t) && t[|t| - 1] == d;
      ClosedHoldsTrails(registry, roots, s, t);
    }
  }

  method NewChildren(descriptors: seq<Digest>, reachable: set<Digest>) returns (children: seq<Digest>)
    ensures forall c :: c in children <==> c in descriptors && IsSha256(c) && c !in reachable
  {
    children := [];
    var n := 0;
    while n < |descriptors|
      invariant 0 <= n <= |descriptors|
      invariant forall c :: c in children <==> c in descriptors[..n] && IsSha256(c) && c !in reachable
    {
      assert descriptors[..n + 1] == descriptors[..n] + [descriptors[n]];
      if IsSha256(descriptors[n]) && descriptors[n] !in reachable {
        children := children + [descriptors[n]];
      }
      n := n + 1;
    }
    assert descriptors[..n] == descriptors;
  }

  // ----- the newest history tags -----

  datatype Item = Item(createdAt: string, tag: Tag)

  /** Order of the pairs (created_at, tag). */
  predicate Older(a: Item, b: Item) {
    Less(a.createdAt, b.createdAt) || (a.createdAt == b.createdAt && Less(a.tag, b.tag))
  }

  lemma OlderIsOrder(a: Item, b: Item, c: Item)
    ensures a == b || Older(a, b) || Older(b, a)
    ensures Older(a, b) && Older(b, c) ==> Older(a, c)
    ensures !(Older(a, b) && Older(b, a))
  {
    LessIsTotal(a.createdAt, b.createdAt);
    LessIsTotal(a.tag, b.tag);
    if Older(a, b) && Older(b, c) {
      if Less(a.createdAt, b.createdAt)
           && Less(b.createdAt, c.createdAt) { LessIsTransitive(a.createdAt, b.createdAt, c.createdAt); }
      if Less(a.tag, b.tag) && Less(b.tag, c.tag) { LessIsTransitive(a.tag, b.tag, c.tag); }
    }
    if Older(a, b) && Older(b, a) {
      LessIsIrreflexive(a.createdAt);
      LessIsIrreflexive(a.tag);
      if Less(a.createdAt, b.createdAt)
           && Less(b.createdAt, a.createdAt) { LessIsTransitive(a.createdAt, b.createdAt, a.createdAt); }
      if Less(a.tag, b.tag) && Less(b.tag, a.tag) { LessIsTransitive(a.tag, b.tag, a.tag); }
    }
  }

  ghost predicate NewestFirst(s: seq<Item>) {
    forall i, j :: 0 <= i < j < |s| ==> !Older(s[i], s[j])
  }

  method SortNewestFirst(history: seq<Item>) returns (sorted: seq<Item>)
    ensures NewestFirst(sorted)
    ensures forall x :: x in sorted <==> x in history
  {
    hide Older;
    sorted := [];
    var n := 0;
    while n < |history|
      invariant 0 <= n <= |history|
      invariant NewestFirst(sorted)
      invariant forall x :: x in sorted <==> x in history[..n]
    {
      var item := history[n];
      assert history[..n + 1] == history[..n] + [item];
      var k := 0;
      while k < |sorted| && !Older(sorted[k], item)
        invariant 0 <= k <= |sorted|
        invariant forall i :: 0 <= i < k ==> !Older(sorted[i], item)
      {
        k := k + 1;
      }
      forall j | k <= j < |sorted| ensures !Older(item, sorted[j]) {
        OlderIsOrder(sorted[k], item, sorted[j]);
      }
      assert sorted == sorted[..k] + sorted[k..];
      sorted := sorted[..k] + [item] + sorted[k..];
      n := n + 1;
    }
    assert history[..n] == history;
  }

  ghost predicate Distinct(ts: seq<Tag>) {
    forall i, j :: 0 <= i < j < |ts| ==> ts[i] != ts[j]
  }

  ghost predicate HasItem(history: seq<Item>, t: Tag) {
    exists x :: x in history && x.tag == t
  }

  /** Each retained tag has an occurrence at least as new as every occurrence of a tag that was dropped. */
  ghost predicate KeepsNewest(retained: seq<Tag>, history: seq<Item>) {
    forall u, x :: u in retained && x in history && x.tag !in retained ==>
      exists y :: y in history && y.tag == u && !Older(y, x)
  }

  /** The `keep` newest distinct tags, or all of them. */
  method RetainNewest(history: seq<Item>, keep: nat) returns (retained: seq<Tag>)
    requires keep >= 1
    ensures Distinct(retained) && |retained| <= keep
    ensures forall t :: t in retained ==> HasItem(history, t)
    ensures |retained| < keep ==> forall x :: x in history ==> x.tag in retained
    ensures KeepsNewest(retained, history)
  {
    hide Older;
    var sorted := SortNewestFirst(history);
    retained := [];
    var n := 0;
    while n < |sorted|
      invariant 0 <= n <= |sorted|
      invariant Distinct(retained) && |retained| < keep
      invariant forall t :: t in retained <==> exists i :: 0 <= i < n && sorted[i].tag == t
    {
      if sorted[n].tag !in retained {
        retained := retained + [sorted[n].tag];
      }
      n := n + 1;
      if |retained| == keep { break; }
    }
    forall t | t in retained ensures HasItem(history, t) {
      var i :| 0 <= i < n && sorted[i].tag == t;
      assert sorted[i] in history;
    }
    forall u, x | u in retained && x in history && x.tag !in retained
      ensures exists y :: y in history && y.tag == u && !Older(y, x)
    {
      var i :| 0 <= i < n && sorted[i].tag == u;
      assert x in sorted;
      var j :| 0 <= j < |sorted| && sorted[j] == x;
      assert j >= n;
      assert sorted[i] in history && !Older(sorted[i], sorted[j]);
    }
    if |retained| < keep {
      forall x | x in history ensures x.tag in retained {
        assert x in sorted;
      }
    }
  }

  // ----- protection -----

  predicate IsHex(c: char) { '0' <= c <= '9' || 'a' <= c <= 'f' }

  predicate IsHistoryTag(base: Tag, tag: Tag) {
    && |tag| == |base| + 13 && base <= tag && tag[|base|] == '-'
    && forall i :: |base| < i < |tag| ==> IsHex(tag[i])
  }

  function WithArches(t: Tag): set<Tag> {
    {t, t + "-amd64", t + "-arm64"}
  }

  /** base_tag and the retained history, each with its architecture tags, and every release tag. */
  ghost function TagProtection(versions: seq<Version>, base: Tag, retained: seq<Tag>,
                               isRelease: Tag -> bool): set<Tag> {
    WithArches(base)
    + (set t, a | t in retained && a in WithArches(t) :: a)
    + (set v, t | v in versions && t in v.tags && isRelease(t) :: t)
  }

  predicate HasTag(v: Version, tags: set<Tag>) {
    exists t :: t in v.tags && t in tags
  }

  function TaggedDigests(versions: seq<Version>, tags: set<Tag>): set<Digest> {
    set v | v in versions && HasTag(v, tags) :: v.name
  }

  /** Text after the first colon of a digest. */
  function AfterColon(d: Digest): string {
    if d == "" then "" else if d[0] == ':' then d[1..] else AfterColon(d[1..])
  }

  function SignatureTags(digests: set<Digest>): set<Tag> {
    set d | d in digests :: "sha256-" + AfterColon(d)
  }

  /** Those tags and the signature tags of the digests they name. */
  ghost function ProtectedTags(versions: seq<Version>, base: Tag, retained: seq<Tag>,
                               isRelease: Tag -> bool): set<Tag> {
    var tags := TagProtection(versions, base, retained, isRelease);
    tags + SignatureTags(TaggedDigests(versions, tags))
  }

  function AllTags(versions: seq<Version>): set<Tag> {
    set v, t | v in versions && t in v.tags :: t
  }

  /** A tag that protects by itself: a release tag of some version, or the base tag, a retained history tag, or one of
      their architecture tags. */
  ghost predicate IsNamed(versions: seq<Version>, base: Tag, retained: seq<Tag>, isRelease: Tag -> bool, t: Tag) {
    || (isRelease(t) && exists v :: v in versions && t in v.tags)
    || exists u :: (u == base || u in retained) && t in {u, u + "-amd64", u + "-arm64"}
  }

  /** A signature tag: "sha256-" with the digits of a digest that bears such a tag. */
  ghost predicate IsSignature(versions: seq<Version>, base: Tag, retained: seq<Tag>, isRelease: Tag -> bool, t: Tag) {
    exists v, u, k :: v in versions && u in v.tags && IsNamed(versions, base, retained, isRelease, u)
         && 0 <= k < |v.name| && v.name[k] == ':' && ':' !in v.name[..k] && t == "sha256-" + v.name[k + 1..]
  }

  lemma {:induction false} ColonAt(d: Digest) returns (k: nat)
    requires ':' in d
    ensures k < |d| && d[k] == ':' && ':' !in d[..k] && AfterColon(d) == d[k + 1..]
    decreases |d|
  {
    if d[0] == ':' {
      k := 0;
    } else {
      assert d == [d[0]] + d[1..];
      k := ColonAt(d[1..]);
      assert d[..k + 1] == [d[0]] + d[1..][..k] && d[1..][k + 1..] == d[k + 2..];
      k := k + 1;
    }
  }

  lemma FirstColonIsUnique(d: Digest, j: nat, k: nat)
    requires j < |d| && k < |d| && d[j] == ':' && d[k] == ':' && ':' !in d[..j] && ':' !in d[..k]
    ensures j == k
  {
  }

  lemma NamedExactly(versions: seq<Version>, base: Tag, retained: seq<Tag>, isRelease: Tag -> bool, t: Tag)
    ensures t in TagProtection(versions, base, retained, isRelease) <==>
            IsNamed(versions, base, retained, isRelease, t)
  {
    if u :| (u == base || u in retained) && t in {u, u + "-amd64", u + "-arm64"} {
      assert t in WithArches(u);
    }
    if t in WithArches(base) { assert t in {base, base + "-amd64", base + "-arm64"}; }
    if u :| u in retained && t in WithArches(u) { assert t in {u, u + "-amd64", u + "-arm64"}; }
  }

  /** A tag is protected for one of these reasons, and for no other. */
  lemma ProtectedExactly(versions: seq<Version>, base: Tag, retained: seq<Tag>, isRelease: Tag -> bool, t: Tag)
    requires Splits(versions, base, retained, isRelease)
    ensures t in ProtectedTags(versions, base, retained, isRelease) <==>
            || IsNamed(versions, base, retained, isRelease, t)
            || IsSignature(versions, base, retained, isRelease, t)
  {
    hide TagProtection, IsNamed, AfterColon;
    forall u { NamedExactly(versions, base, retained, isRelease, u); }
    var tags := TagProtection(versions, base, retained, isRelease);
    if t in SignatureTags(TaggedDigests(versions, tags)) {
      var v :| v in versions && HasTag(v, tags) && t == "sha256-" + AfterColon(v.name);
      var k := ColonAt(v.name);
    }
    if IsSignature(versions, base, retained, isRelease, t) {
      var v, u, k :| v in versions && u in v.tags && IsNamed(versions, base, retained, isRelease, u)
         && 0 <= k < |v.name| && v.name[k] == ':' && ':' !in v.name[..k] && t == "sha256-" + v.name[k + 1..];
      var j := ColonAt(v.name);
      FirstColonIsUnique(v.name, j, k);
      assert HasTag(v, tags) && v.name in TaggedDigests(versions, tags);
    }
  }

  /** Every digest a signature tag is formed of has a colon to cut it at. */
  ghost predicate Splits(versions: seq<Version>, base: Tag, retained: seq<Tag>, isRelease: Tag -> bool) {
    forall v :: v in versions && HasTag(v, TagProtection(versions, base, retained, isRelease)) ==> ':' in v.name
  }

  datatype Protection = Protection(tags: set<Tag>, roots: set<Digest>, retained: seq<Tag>)

  /** Without a colon in a tagged digest the selection fails. */
  datatype Protecting = Protected(protection: Protection) | Malformed(retained: seq<Tag>)

  /** The newest `keep` distinct history tags of the base tag, or all of them. */
  ghost predicate IsRetained(versions: seq<Version>, base: Tag, keep: nat, retained: seq<Tag>) {
    var history := HistoryOf(versions, base);
    && Distinct(retained) && |retained| <= keep && KeepsNewest(retained, history)
    && (forall t :: t in retained ==> HasItem(history, t))
    && (|retained| < keep ==> forall x :: x in history ==> x.tag in retained)
  }

  method SelectProtected(versions: seq<Version>, base: Tag, keep: nat, isRelease: Tag -> bool) returns (r: Protecting)
    requires keep >= 1
    ensures var retained := if r.Malformed? then r.retained else r.protection.retained;
            && IsRetained(versions, base, keep, retained)
            && (r.Protected? <==> Splits(versions, base, retained, isRelease))
    ensures r.Protected? ==>
              && r.protection.tags == ProtectedTags(versions, base, r.protection.retained, isRelease)
              && r.protection.roots == TaggedDigests(versions, r.protection.tags)
  {
    hide KeepsNewest, IsHistoryTag, WithArches, AfterColon;
    var retained := RetainNewest(HistoryOf(versions, base), keep);
    var tags := WithArches(base)
      + (set t, a | t in retained && a in WithArches(t) :: a)
      + (set v, t | v in versions && t in v.tags && isRelease(t) :: t);
    var roots := TaggedDigests(versions, tags);
    if exists d :: d in roots && ':' !in d { return Malformed(retained); }
    var signatures := SignatureTags(roots);
    RootsGrow(versions, tags, tags + signatures);
    tags := tags + signatures;
    roots := roots + TaggedDigests(versions, tags);
    r := Protected(Protection(tags, roots, retained));
  }

  lemma RootsGrow(versions: seq<Version>, few: set<Tag>, many: set<Tag>)
    requires few <= many
    ensures TaggedDigests(versions, few) + TaggedDigests(versions, many) == TaggedDigests(versions, many)
  {
    assert forall v :: HasTag(v, few) ==> HasTag(v, many);
  }

  function HistoryOf(versions: seq<Version>, base: Tag): seq<Item> {
    if versions == [] then []
    else
      var last := versions[|versions| - 1];
      HistoryOf(versions[..|versions| - 1], base) + HistoryTags(last, last.tags, base)
  }

  function HistoryTags(v: Version, tags: seq<Tag>, base: Tag): seq<Item> {
    if tags == [] then []
    else HistoryTags(v, tags[..|tags| - 1], base) +
         if IsHistoryTag(base, tags[|tags| - 1]) then [Item(v.createdAt, tags[|tags| - 1])] else []
  }

  lemma {:induction false} HistoryTagsMembers(v: Version, tags: seq<Tag>, base: Tag, x: Item)
    ensures x in HistoryTags(v, tags, base) <==>
            x.createdAt == v.createdAt && x.tag in tags && IsHistoryTag(base, x.tag)
    decreases |tags|
  {
    if tags == [] {
    } else {
      var front := tags[..|tags| - 1];
      HistoryTagsMembers(v, front, base, x);
      assert tags == front + [tags[|tags| - 1]];
    }
  }

  lemma {:induction false} HistoryMembers(versions: seq<Version>, base: Tag, x: Item)
    ensures x in HistoryOf(versions, base) <==>
            exists v :: v in versions && x.createdAt == v.createdAt && x.tag in v.tags && IsHistoryTag(base, x.tag)
    decreases |versions|
  {
    hide IsHistoryTag;
    if versions == [] {
    } else {
      var front, last := versions[..|versions| - 1], versions[|versions| - 1];
      HistoryMembers(front, base, x);
      HistoryTagsMembers(last, last.tags, base, x);
      assert versions == front + [last];
    }
  }

  predicate TwelveDigits(hex: string) {
    |hex| == 12 && forall i :: 0 <= i < 12 ==> '0' <= hex[i] <= '9' || 'a' <= hex[i] <= 'f'
  }

  /** The history are the tags of the form base-xxxxxxxxxxxx with twelve hexadecimal digits, with the dates of the
      versions that bear them. */
  lemma HistoryExactly(versions: seq<Version>, base: Tag, x: Item)
    ensures x in HistoryOf(versions, base) <==>
            && (exists v :: v in versions && x.createdAt == v.createdAt && x.tag in v.tags)
            && exists hex :: TwelveDigits(hex) && x.tag == base + "-" + hex
  {
    HistoryMembers(versions, base, x);
    if IsHistoryTag(base, x.tag) {
      var hex := x.tag[|base| + 1..];
      assert x.tag == base + "-" + hex;
    }
    if hex :| TwelveDigits(hex) && x.tag == base + "-" + hex {
      assert forall i :: |base| < i < |x.tag| ==> x.tag[i] == hex[i - |base| - 1];
    }
  }

  // ----- the plan -----

  predicate Spared(v: Version, tags: set<Tag>, reachable: set<Digest>) {
    HasTag(v, tags) || v.name in reachable
  }

  /** Splits the versions without loss, each on the side its own tags and digest decide. */
  method BuildPlan(versions: seq<Version>, tags: set<Tag>, reachable: set<Digest>)
    returns (keep: seq<Version>, delete: seq<Version>)
    ensures multiset(keep) + multiset(delete) == multiset(versions)
    ensures forall v :: v in keep <==> v in versions && Spared(v, tags, reachable)
    ensures forall v :: v in delete <==> v in versions && !Spared(v, tags, reachable)
  {
    hide Spared;
    keep, delete := [], [];
    var n := 0;
    while n < |versions|
      invariant 0 <= n <= |versions|
      invariant multiset(keep) + multiset(delete) == multiset(versions[..n])
      invariant forall v :: v in keep <==> v in versions[..n] && Spared(v, tags, reachable)
      invariant forall v :: v in delete <==> v in versions[..n] && !Spared(v, tags, reachable)
    {
      var version := versions[n];
      assert versions[..n + 1] == versions[..n] + [version];
      if Spared(version, tags, reachable) {
        keep := keep + [version];
      } else {
        delete := delete + [version];
      }
      n := n + 1;
    }
    assert versions[..n] == versions;
  }

  /** The whole run: refuses when a current tag is missing or a protected manifest cannot be read, otherwise a plan. */
  datatype Outcome =
    | Broken(retained: seq<Tag>)
    | MissingTags(tags: set<Tag>, protection: Protection)
    | Refused(digest: Digest, protection: Protection)
    | Plan(keep: seq<Version>, delete: seq<Version>, protection: Protection)

  /** No version that bears a release tag, a current tag, a retained one or a signature of such a version is deleted. */
  ghost predicate SparesTagged(versions: seq<Version>, base: Tag, retained: seq<Tag>, isRelease: Tag -> bool,
                               keep: seq<Version>, delete: seq<Version>) {
    forall v, t :: v in versions && t in v.tags ==>
      (IsNamed(versions, base, retained, isRelease, t) || IsSignature(versions, base, retained, isRelease, t) ==>
       v in keep && v !in delete)
  }

  /** The digests everything kept hangs on are those of the versions with such a tag, and no others. */
  ghost predicate RootsAreTagged(versions: seq<Version>, base: Tag, retained: seq<Tag>, isRelease: Tag -> bool,
                                 roots: set<Digest>) {
    forall d :: d in roots <==>
      exists v, t :: v in versions && t in v.tags && v.name == d
           && (IsNamed(versions, base, retained, isRelease, t) || IsSignature(versions, base, retained, isRelease, t))
  }

  method Retain(versions: seq<Version>, registry: Registry, base: Tag, keepCount: nat, isRelease: Tag -> bool)
    returns (o: Outcome)
    requires keepCount >= 1
    ensures var retained := if o.Broken? then o.retained else o.protection.retained;
            && IsRetained(versions, base, keepCount, retained)
            && (o.Broken? <==> !Splits(versions, base, retained, isRelease))
    ensures o.Plan? ==> IsSafePlan(versions, registry, o.keep, o.delete, o.protection.roots)
    ensures o.Plan? ==> SparesTagged(versions, base, o.protection.retained, isRelease, o.keep, o.delete)
    ensures !o.Broken? ==> RootsAreTagged(versions, base, o.protection.retained, isRelease, o.protection.roots)
    ensures !o.Broken? ==> (o.MissingTags? <==> !({base, base + "-amd64", base + "-arm64"} <= AllTags(versions)))
    ensures o.MissingTags? ==> o.tags == {base, base + "-amd64", base + "-arm64"} - AllTags(versions)
    ensures o.Plan? <==> !o.Broken? && !o.MissingTags?
                         && forall d :: Reachable(registry, o.protection.roots, d) ==> d in registry
    ensures o.Refused? ==> o.digest !in registry && Reachable(registry, o.protection.roots, o.digest)
  {
    hide TagProtection, ProtectedTags, IsRetained, TaggedDigests, Reachable, HistoryOf, AllTags;
    hide IsNamed, IsSignature, SparesTagged, RootsAreTagged, Splits;
    var r := SelectProtected(versions, base, keepCount, isRelease);
    if r.Malformed? { return Broken(r.retained); }
    var p := r.protection;
    RootsBearTags(versions, base, p, isRelease);
    var missing := WithArches(base) - AllTags(versions);
    if missing != {} {
      var t :| t in missing;
      assert t in WithArches(base) && t !in AllTags(versions);
      return MissingTags(missing, p);
    }
    assert WithArches(base) <= AllTags(versions) by {
      forall t | t in WithArches(base) ensures t in AllTags(versions) { assert t !in missing; }
    }
    var roots := ListOf(p.roots);
    assert SetOf(roots) == p.roots;
    var walked := ReachableDigests(registry, roots);
    if walked.CannotRead? { return Refused(walked.digest, p); }
    var keep, delete := BuildPlan(versions, p.tags, walked.digests);
    PlanIsSafe(versions, registry, keep, delete, p, walked.digests);
    PlanSparesTagged(versions, base, p, isRelease, keep, delete, walked.digests);
    o := Plan(keep, delete, p);
  }

  lemma RootsBearTags(versions: seq<Version>, base: Tag, p: Protection, isRelease: Tag -> bool)
    requires Splits(versions, base, p.retained, isRelease)
    requires p.tags == ProtectedTags(versions, base, p.retained, isRelease)
              && p.roots == TaggedDigests(versions, p.tags)
    ensures RootsAreTagged(versions, base, p.retained, isRelease, p.roots)
  {
    hide ProtectedTags, IsNamed, IsSignature, Splits;
    forall t { ProtectedExactly(versions, base, p.retained, isRelease, t); }
    forall d ensures d in p.roots <==> exists v, t :: v in versions && t in v.tags && v.name == d && t in p.tags {
      if v, t :| v in versions && t in v.tags && v.name == d && t in p.tags {
        assert HasTag(v, p.tags);
      }
    }
  }

  lemma PlanSparesTagged(versions: seq<Version>, base: Tag, p: Protection, isRelease: Tag -> bool, keep: seq<Version>,
                         delete: seq<Version>, reachable: set<Digest>)
    requires Splits(versions, base, p.retained, isRelease)
    requires p.tags == ProtectedTags(versions, base, p.retained, isRelease)
    requires forall v :: v in keep <==> v in versions && Spared(v, p.tags, reachable)
    requires forall v :: v in delete <==> v in versions && !Spared(v, p.tags, reachable)
    ensures SparesTagged(versions, base, p.retained, isRelease, keep, delete)
  {
    hide ProtectedTags, IsNamed, IsSignature, Splits;
    forall t { ProtectedExactly(versions, base, p.retained, isRelease, t); }
  }

  /** Nothing is lost or duplicated, exactly the versions a protected root reaches are kept, and no kept version
      refers to a deleted one. */
  ghost predicate IsSafePlan(versions: seq<Version>, registry: Registry, keep: seq<Version>, delete: seq<Version>,
                             roots: set<Digest>) {
    && multiset(keep) + multiset(delete) == multiset(versions)
    && (forall v :: v in keep <==> v in versions && Reachable(registry, roots, v.name))
    && (forall v :: v in delete <==> v in versions && !Reachable(registry, roots, v.name))
    && (forall v, w :: v in keep && w in versions && Refers(registry, v.name, w.name) ==> w in keep)
  }

  lemma PlanIsSafe(versions: seq<Version>, registry: Registry, keep: seq<Version>, delete: seq<Version>, p: Protection,
                   reachable: set<Digest>)
    requires p.roots == TaggedDigests(versions, p.tags)
    requires forall d :: d in reachable <==> Reachable(registry, p.roots, d)
    requires multiset(keep) + multiset(delete) == multiset(versions)
    requires forall v :: v in keep <==> v in versions && Spared(v, p.tags, reachable)
    requires forall v :: v in delete <==> v in versions && !Spared(v, p.tags, reachable)
    ensures IsSafePlan(versions, registry, keep, delete, p.roots)
  {
    hide Reachable;
    forall v | v in versions ensures Spared(v, p.tags, reachable) <==> Reachable(registry, p.roots, v.name) {
      if HasTag(v, p.tags) {
        RootIsReachable(registry, p.roots, v.name);
      }
    }
    forall v, w | v in keep && w in versions && Refers(registry, v.name, w.name) ensures w in keep {
      ChildIsReachable(registry, p.roots, v.name, w.name);
    }
  }
}
