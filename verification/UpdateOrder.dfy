/** The order in which an automatic stack update replaces its containers. */
module UpdateOrder {
  import opened Paths

  datatype Target = Target(containerId: string, containerName: string, service: string, dependsOn: string,
                           image: string, rollbackEnabled: bool)

  // ----- the depends_on label -----

  /** White space of Unicode. */
  predicate IsSpace(c: char) {
    || '\t' <= c <= '\r' || c == ' ' || c == '\U{0085}' || c == '\U{00A0}' || c == '\U{1680}'
    || '\U{2000}' <= c <= '\U{200A}' || c == '\U{2028}' || c == '\U{2029}' || c == '\U{202F}' || c == '\U{205F}'
    || c == '\U{3000}'
  }

  function TrimLeft(s: string): string {
    if s != "" && IsSpace(s[0]) then TrimLeft(s[1..]) else s
  }

  function TrimRight(s: string): string {
    if s != "" && IsSpace(s[|s| - 1]) then TrimRight(s[..|s| - 1]) else s
  }

  /** Index of the first c in s, or |s|. */
  function Cut(s: string, c: char): (k: nat)
    ensures k <= |s|
  {
    if s == "" || s[0] == c then 0 else 1 + Cut(s[1..], c)
  }

  function Split(s: string): seq<string>
    decreases |s|
  {
    var k := Cut(s, ',');
    if k == |s| then [s] else [s[..k]] + Split(s[k + 1..])
  }

  /** "service:condition:restart" names the service. */
  function ServiceOf(item: string): string {
    TrimRight(TrimLeft(item[..Cut(item, ':')]))
  }

  predicate Blank(s: string) {
    forall i :: 0 <= i < |s| ==> IsSpace(s[i])
  }

  lemma {:induction false} CutAt(a: string, c: char, b: string)
    requires c !in a
    ensures Cut(a, c) == |a| && Cut(a + [c] + b, c) == |a|
    decreases |a|
  {
    if a == "" {
      assert a + [c] + b == [c] + b;
    } else {
      assert (a + [c] + b)[1..] == a[1..] + [c] + b;
      CutAt(a[1..], c, b);
    }
  }

  /** A label is cut at its commas. */
  lemma LabelIsCutAtCommas(item: string, rest: string)
    requires ',' !in item
    ensures Split(item) == [item] && Split(item + "," + rest) == [item] + Split(rest)
  {
    CutAt(item, ',', rest);
    var s := item + "," + rest;
    assert s[..|item|] == item && s[|item| + 1..] == rest;
  }

  lemma {:induction false} TrimsLeft(left: string, s: string)
    requires Blank(left) && s != "" && !IsSpace(s[0])
    ensures TrimLeft(left + s) == s
    decreases |left|
  {
    hide IsSpace;
    if left == "" {
      assert left + s == s;
    } else {
      assert (left + s)[0] == left[0] && (left + s)[1..] == left[1..] + s;
      TrimsLeft(left[1..], s);
    }
  }

  lemma {:induction false} TrimsRight(s: string, right: string)
    requires Blank(right) && s != "" && !IsSpace(s[|s| - 1])
    ensures TrimRight(s + right) == s
    decreases |right|
  {
    hide IsSpace;
    if right == "" {
      assert s + right == s;
    } else {
      var t := s + right;
      assert t[|t| - 1] == right[|right| - 1] && t[..|t| - 1] == s + right[..|right| - 1];
      TrimsRight(s, right[..|right| - 1]);
    }
  }

  /** An item names the text before its first colon, without the space around it: "db", " db " and
      "db:service_started:false" all name db. */
  lemma ItemNamesItsService(left: string, name: string, right: string, rest: string)
    requires Blank(left) && Blank(right) && ':' !in name && name != ""
    requires !IsSpace(name[0]) && !IsSpace(name[|name| - 1])
    ensures ServiceOf(left + name + right) == name && ServiceOf(left + name + right + ":" + rest) == name
  {
    var item := left + name + right;
    assert ':' !in item by { assert forall i :: 0 <= i < |item| ==> item[i] != ':'; }
    CutAt(item, ':', rest);
    assert item[..|item|] == item && (item + ":" + rest)[..|item|] == item;
    assert item == left + (name + right) && (name + right)[0] == name[0];
    TrimsLeft(left, name + right);
    TrimsRight(name, right);
  }

  /** The two forms Compose writes. */
  lemma LabelExamples()
    ensures ServiceOf("db") == "db" && ServiceOf(" db ") == "db" && ServiceOf("db:service_started:false") == "db"
  {
    hide ServiceOf, TrimLeft, TrimRight;
    ItemNamesItsService("", "db", "", "service_started:false");
    ItemNamesItsService(" ", "db", " ", "");
    assert "" + "db" + "" == "db" && " " + "db" + " " == " db ";
    assert "" + "db" + "" + ":" + "service_started:false" == "db:service_started:false";
  }

  function Named(items: seq<string>): set<string> {
    set i | 0 <= i < |items| :: ServiceOf(items[i])
  }

  /** The dependencies of a target among the services that take part. */
  function Dependencies(t: Target, available: set<string>): set<string> {
    Named(Split(t.dependsOn)) * available
  }

  method ComposeTargetDependencies(value: string, available: set<string>) returns (dependencies: seq<string>)
    ensures forall d :: d in dependencies <==> d in Named(Split(value)) && d in available
    ensures forall i, j :: 0 <= i < j < |dependencies| ==> dependencies[i] != dependencies[j]
  {
    hide ServiceOf;
    dependencies := [];
    var items := Split(value);
    var n := 0;
    while n < |items|
      invariant 0 <= n <= |items|
      invariant forall d :: d in dependencies <==> d in available && exists i :: 0 <= i < n && ServiceOf(items[i]) == d
      invariant forall i, j :: 0 <= i < j < |dependencies| ==> dependencies[i] != dependencies[j]
    {
      var service := ServiceOf(items[n]);
      if service in available && service !in dependencies {
        dependencies := dependencies + [service];
      }
      n := n + 1;
    }
  }

  // ----- what a good order is -----

  function Services(ts: seq<Target>): set<string> {
    set i | 0 <= i < |ts| && ts[i].service != "" :: ts[i].service
  }

  /** Every target comes after a target of each service it depends on. */
  ghost predicate DependencyOrdered(ts: seq<Target>, services: set<string>) {
    forall i, d :: 0 <= i < |ts| && d in Dependencies(ts[i], services) ==> Precedes(ts, d, i)
  }

  ghost predicate Precedes(ts: seq<Target>, service: string, i: int) {
    exists j :: 0 <= j < i && j < |ts| && ts[j].service == service
  }

  ghost predicate Ranks(rank: string -> nat, ts: seq<Target>, services: set<string>) {
    forall t, d :: t in ts && d in Dependencies(t, services) ==> rank(d) < rank(t.service)
  }

  /** The dependencies among the services present have no cycle. */
  ghost predicate Acyclic(ts: seq<Target>) {
    exists rank: string -> nat :: Ranks(rank, ts, Services(ts))
  }

  ghost predicate UniqueServices(ts: seq<Target>) {
    forall i, j :: 0 <= i < j < |ts| && ts[i].service == ts[j].service ==> ts[i].service == ""
  }

  // ----- sorting -----

  function LowerText(s: string): string {
    if s == "" then "" else [LowerChar(s[0])] + LowerText(s[1..])
  }

  ghost predicate SortedByName(r: seq<Target>) {
    forall i, j :: 0 <= i < j < |r| ==> !Less(LowerText(r[j].containerName), LowerText(r[i].containerName))
  }

  /** Targets that wait for nobody keep the order of their names. */
  ghost predicate FreeInNameOrder(r: seq<Target>, services: set<string>) {
    forall i, j :: 0 <= i < j < |r| && Dependencies(r[i], services) == {} && Dependencies(r[j], services) == {} ==>
      !Less(LowerText(r[j].containerName), LowerText(r[i].containerName))
  }

  lemma MoveKeepsNameOrder(ordered: seq<Target>, remaining: seq<Target>, index: nat, services: set<string>)
    requires index < |remaining| && FreeInNameOrder(ordered + remaining, services)
    requires Dependencies(remaining[index], services) == {} ==>
               forall k :: 0 <= k < index ==> Dependencies(remaining[k], services) != {}
    ensures FreeInNameOrder((ordered + [remaining[index]]) + (remaining[..index] + remaining[index + 1..]), services)
  {
    hide Dependencies, Less, LowerText;
    var was, now := ordered + remaining, (ordered + [remaining[index]]) + (remaining[..index] + remaining[index + 1..]);
    var n := |ordered|;
    forall i, j | 0 <= i < j < |now| && Dependencies(now[i], services) == {} && Dependencies(now[j], services) == {}
      ensures !Less(LowerText(now[j].containerName), LowerText(now[i].containerName))
    {
      var i' := if i < n then i else if i == n then n + index else if i <= n + index then i - 1 else i;
      var j' := if j < n then j else if j == n then n + index else if j <= n + index then j - 1 else j;
      assert now[i] == was[i'] && now[j] == was[j'];
      assert i' < j';
    }
  }

  method SortByName(ts: seq<Target>) returns (r: seq<Target>)
    ensures multiset(r) == multiset(ts) && SortedByName(r)
  {
    hide SortedByName;
    r := [];
    assert SortedByName(r) by { EmptyIsSorted(); }
    var n := 0;
    while n < |ts|
      invariant 0 <= n <= |ts|
      invariant multiset(r) == multiset(ts[..n]) && SortedByName(r)
    {
      r := InsertByName(r, ts[n]);
      assert ts[..n + 1] == ts[..n] + [ts[n]];
      n := n + 1;
    }
    assert ts[..n] == ts;
  }

  lemma EmptyIsSorted()
    ensures SortedByName([])
  {
  }

  method InsertByName(r: seq<Target>, t: Target) returns (s: seq<Target>)
    requires SortedByName(r)
    ensures SortedByName(s) && multiset(s) == multiset(r) + multiset{t}
  {
    hide LowerText, Less;
    var k := |r|;
    while k > 0 && Less(LowerText(t.containerName), LowerText(r[k - 1].containerName))
      invariant 0 <= k <= |r|
      invariant forall i :: k <= i < |r| ==> Less(LowerText(t.containerName), LowerText(r[i].containerName))
    {
      k := k - 1;
    }
    InsertionPoint(r, t, k);
    assert r == r[..k] + r[k..];
    s := r[..k] + [t] + r[k..];
  }

  lemma InsertionPoint(r: seq<Target>, t: Target, k: nat)
    requires k <= |r| && SortedByName(r)
    requires k > 0 ==> !Less(LowerText(t.containerName), LowerText(r[k - 1].containerName))
    requires forall i :: k <= i < |r| ==> Less(LowerText(t.containerName), LowerText(r[i].containerName))
    ensures SortedByName(r[..k] + [t] + r[k..])
  {
    hide LowerText, Less;
    var key := LowerText(t.containerName);
    forall i | 0 <= i < k ensures !Less(key, LowerText(r[i].containerName)) {
      var a, b := LowerText(r[i].containerName), LowerText(r[k - 1].containerName);
      Trichotomy(key, a, b);
    }
    forall i | k <= i < |r| ensures !Less(LowerText(r[i].containerName), key) {
      Trichotomy(key, LowerText(r[i].containerName), key);
    }
  }

  lemma Trichotomy(k: string, a: string, b: string)
    ensures Less(k, a) ==> !Less(a, k)
    ensures Less(k, a) && !Less(b, a) ==> Less(k, b)
  {
    LessIsIrreflexive(k);
    if Less(k, a) && Less(a, k) { LessIsTransitive(k, a, k); }
    LessIsTotal(a, b);
    if Less(k, a) && Less(a, b) { LessIsTransitive(k, a, b); }
  }

  // ----- ordering -----

  method OrderStackUpdateTargets(targets: seq<Target>) returns (ordered: seq<Target>, ghost fellBack: bool)
    ensures multiset(ordered) == multiset(targets)
    ensures !fellBack ==> DependencyOrdered(ordered, Services(targets))
    ensures fellBack ==> !Acyclic(targets)
    ensures Acyclic(targets) ==> DependencyOrdered(ordered, Services(targets))
    ensures FreeInNameOrder(ordered, Services(targets))
  {
    hide Dependencies, Acyclic, Less, LowerText, FreeInNameOrder, SortedByName;
    var remaining := SortByName(targets);
    var services := Services(remaining);
    SameServices(remaining, targets);
    ordered, fellBack := [], false;
    assert FreeInNameOrder(ordered + remaining, services) by { NamesInOrder(remaining, services); }
    var done: set<string> := {};
    while |remaining| > 0
      invariant multiset(ordered) + multiset(remaining) == multiset(targets)
      invariant done == Services(ordered)
      invariant DependencyOrdered(ordered, services)
      invariant FreeInNameOrder(ordered + remaining, services)
      decreases |remaining|
    {
      var progress;
      ordered, remaining, done, progress := OnePass(ordered, remaining, done, services);
      if !progress {
        StuckIsCyclic(targets, ordered, remaining, services);
        fellBack := true;
        ordered := ordered + remaining;
        return;
      }
    }
    assert ordered + remaining == ordered;
  }

  lemma NamesInOrder(ts: seq<Target>, services: set<string>)
    requires SortedByName(ts)
    ensures FreeInNameOrder([] + ts, services)
  {
    hide Dependencies, Less, LowerText;
    assert [] + ts == ts;
  }

  /** One scan over the remaining targets; a target that becomes ready is moved at once. */
  method OnePass(ordered0: seq<Target>, remaining0: seq<Target>, done0: set<string>, services: set<string>)
    returns (ordered: seq<Target>, remaining: seq<Target>, done: set<string>, progress: bool)
    requires done0 == Services(ordered0) && DependencyOrdered(ordered0, services)
    requires FreeInNameOrder(ordered0 + remaining0, services)
    ensures FreeInNameOrder(ordered + remaining, services)
    ensures multiset(ordered) + multiset(remaining) == multiset(ordered0) + multiset(remaining0)
    ensures done == Services(ordered) && DependencyOrdered(ordered, services)
    ensures progress ==> |remaining| < |remaining0|
    ensures !progress ==> ordered == ordered0 && remaining == remaining0
                          && forall k :: 0 <= k < |remaining| ==> !(Dependencies(remaining[k], services) <= done)
  {
    hide Named, Services, DependencyOrdered, FreeInNameOrder;
    ordered, remaining, done, progress := ordered0, remaining0, done0, false;
    var index := 0;
    while index < |remaining|
      invariant 0 <= index <= |remaining| <= |remaining0|
      invariant multiset(ordered) + multiset(remaining) == multiset(ordered0) + multiset(remaining0)
      invariant done == Services(ordered) && DependencyOrdered(ordered, services)
      invariant FreeInNameOrder(ordered + remaining, services)
      invariant forall k :: 0 <= k < index ==> Dependencies(remaining[k], services) != {}
      invariant progress ==> |remaining| < |remaining0|
      invariant !progress ==> ordered == ordered0 && remaining == remaining0 && done == done0
                              && forall k :: 0 <= k < index ==> !(Dependencies(remaining[k], services) <= done)
      decreases |remaining| - index
    {
      var target := remaining[index];
      var dependencies := ComposeTargetDependencies(target.dependsOn, services);
      var ready := AllDone(dependencies, done);
      assert forall d :: d in dependencies ==> d in Dependencies(target, services);
      if !ready {
        index := index + 1;
        continue;
      }
      ReadyExtends(ordered, target, services);
      TakeOut(remaining, index);
      MoveKeepsNameOrder(ordered, remaining, index, services);
      ordered := ordered + [target];
      if target.service != "" {
        done := done + {target.service};
      }
      remaining := remaining[..index] + remaining[index + 1..];
      progress := true;
    }
  }

  method AllDone(dependencies: seq<string>, done: set<string>) returns (ready: bool)
    ensures ready <==> forall d :: d in dependencies ==> d in done
  {
    var n := 0;
    while n < |dependencies|
      invariant 0 <= n <= |dependencies|
      invariant forall i :: 0 <= i < n ==> dependencies[i] in done
    {
      if dependencies[n] !in done { return false; }
      n := n + 1;
    }
    ready := true;
  }

  lemma TakeOut(s: seq<Target>, k: nat)
    requires k < |s|
    ensures multiset(s) == multiset(s[..k] + s[k + 1..]) + multiset{s[k]}
  {
    assert s == s[..k] + [s[k]] + s[k + 1..];
  }

  lemma ReadyExtends(ordered: seq<Target>, t: Target, services: set<string>)
    requires DependencyOrdered(ordered, services) && Dependencies(t, services) <= Services(ordered)
    ensures DependencyOrdered(ordered + [t], services)
    ensures Services(ordered + [t]) == if t.service != "" then Services(ordered) + {t.service} else Services(ordered)
  {
    hide Dependencies;
    var more := ordered + [t];
    forall i, d | 0 <= i < |more| && d in Dependencies(more[i], services) ensures Precedes(more, d, i) {
      if i < |ordered| {
        assert Precedes(ordered, d, i);
        var j :| 0 <= j < i && ordered[j].service == d;
        assert more[j].service == d;
      } else {
        var j :| 0 <= j < |ordered| && ordered[j].service == d;
        assert more[j].service == d;
      }
    }
    forall s ensures s in Services(more) <==> s in Services(ordered) || (t.service != "" && s == t.service) {
      if s in Services(ordered) {
        var i :| 0 <= i < |ordered| && ordered[i].service == s;
        assert more[i].service == s;
      }
      if t.service != "" { assert more[|ordered|].service == t.service; }
    }
  }

  lemma SameServices(a: seq<Target>, b: seq<Target>)
    requires multiset(a) == multiset(b)
    ensures Services(a) == Services(b)
  {
    assert forall t :: t in a <==> t in multiset(a);
    assert forall t :: t in b <==> t in multiset(b);
    forall s ensures s in Services(a) <==> s in Services(b) {
      if s in Services(a) {
        var i :| 0 <= i < |a| && a[i].service != "" && a[i].service == s;
        assert a[i] in b;
      }
      if s in Services(b) {
        var i :| 0 <= i < |b| && b[i].service != "" && b[i].service == s;
        assert b[i] in a;
      }
    }
  }

  /** No target is ready: each one waits for a service of another remaining target, so no ranking exists. */
  lemma StuckIsCyclic(targets: seq<Target>, ordered: seq<Target>, remaining: seq<Target>, services: set<string>)
    requires multiset(ordered) + multiset(remaining) == multiset(targets) && services == Services(targets)
              && remaining != []
    requires forall k :: 0 <= k < |remaining| ==> !(Dependencies(remaining[k], services) <= Services(ordered))
    ensures !Acyclic(targets)
  {
    hide Dependencies;
    if rank: string -> nat :| Ranks(rank, targets, services) {
      var k := LeastRank(remaining, rank);
      var d :| d in Dependencies(remaining[k], services) && d !in Services(ordered);
      var m := WaitsFor(targets, ordered, remaining, services, d) by { InServices(remaining[k], services, d); }
      assert remaining[k] in multiset(targets);
      assert remaining[k] in targets;
      assert rank(d) < rank(remaining[k].service);
    }
  }

  lemma InServices(t: Target, services: set<string>, d: string)
    requires d in Dependencies(t, services)
    ensures d in services
  {
  }

  lemma WaitsFor(targets: seq<Target>, ordered: seq<Target>, remaining: seq<Target>, services: set<string>, d: string)
    returns (m: nat)
    requires multiset(ordered) + multiset(remaining) == multiset(targets) && services == Services(targets)
    requires d in services && d !in Services(ordered)
    ensures m < |remaining| && remaining[m].service == d
  {
    var i :| 0 <= i < |targets| && targets[i].service != "" && targets[i].service == d;
    assert targets[i] in multiset(targets);
    assert targets[i] in multiset(ordered) || targets[i] in multiset(remaining);
    assert targets[i] !in ordered;
    m :| 0 <= m < |remaining| && remaining[m] == targets[i];
  }

  lemma {:induction false} LeastRank(ts: seq<Target>, rank: string -> nat) returns (k: nat)
    requires ts != []
    ensures k < |ts| && forall i :: 0 <= i < |ts| ==> rank(ts[k].service) <= rank(ts[i].service)
    decreases |ts|
  {
    if |ts| == 1 {
      k := 0;
    } else {
      var front := ts[..|ts| - 1];
      k := LeastRank(front, rank);
      if rank(ts[|ts| - 1].service) < rank(ts[k].service) {
        k := |ts| - 1;
      }
    }
  }

  // ----- the order exists exactly when there is no cycle -----

  function FirstIndex(ts: seq<Target>, service: string): (k: nat)
    ensures k <= |ts|
    ensures k < |ts| ==> ts[k].service == service
    ensures forall i :: 0 <= i < k ==> ts[i].service != service
  {
    if ts == [] || ts[0].service == service then 0 else 1 + FirstIndex(ts[1..], service)
  }

  ghost function RankBy(ts: seq<Target>): string -> nat {
    s => if s == "" then |ts| else FirstIndex(ts, s)
  }

  /** With distinct service names an order that respects the dependencies is a ranking. */
  lemma OrderIsRanking(ts: seq<Target>, services: set<string>)
    requires UniqueServices(ts) && DependencyOrdered(ts, services) && "" !in services
    ensures Ranks(RankBy(ts), ts, services)
  {
    hide Named;
    forall t, d | t in ts && d in Dependencies(t, services) ensures RankBy(ts)(d) < RankBy(ts)(t.service) {
      var i :| 0 <= i < |ts| && ts[i] == t;
      assert Precedes(ts, d, i);
      var j :| 0 <= j < i && ts[j].service == d;
      assert FirstIndex(ts, d) <= j;
    }
  }

  /** Any arrangement of the targets ranks the same dependencies. */
  lemma RanksAnyArrangement(a: seq<Target>, b: seq<Target>, rank: string -> nat, services: set<string>)
    requires multiset(a) == multiset(b) && Ranks(rank, a, services)
    ensures Ranks(rank, b, services)
  {
    hide Dependencies;
    assert forall t :: t in a <==> t in multiset(a);
    assert forall t :: t in b <==> t in multiset(b);
  }

  /** For distinct service names: a returned arrangement respects the dependencies if and only if they are acyclic,
      and then a service's single target stands before everything that depends on it. */
  lemma OrderedExactlyWhenAcyclic(targets: seq<Target>, ordered: seq<Target>)
    requires multiset(ordered) == multiset(targets) && UniqueServices(ordered)
    requires Acyclic(targets) ==> DependencyOrdered(ordered, Services(targets))
    ensures DependencyOrdered(ordered, Services(targets)) <==> Acyclic(targets)
    ensures Acyclic(targets) ==>
              forall i, j :: 0 <= i < |ordered| && 0 <= j < |ordered| ==>
                ordered[j].service != "" && ordered[j].service in Named(Split(ordered[i].dependsOn)) ==> j < i
  {
    hide Named;
    var services := Services(targets);
    if DependencyOrdered(ordered, services) {
      OrderIsRanking(ordered, services);
      RanksAnyArrangement(ordered, targets, RankBy(ordered), services);
      SameServices(ordered, targets);
      forall i, j | 0 <= i < |ordered| && 0 <= j < |ordered| && ordered[j].service != ""
                    && ordered[j].service in Named(Split(ordered[i].dependsOn))
        ensures j < i {
        assert ordered[j].service in services && ordered[j].service in Dependencies(ordered[i], services);
        assert Precedes(ordered, ordered[j].service, i);
        var k :| 0 <= k < i && ordered[k].service == ordered[j].service;
        assert ordered[j].service in services;
      }
    }
  }
}
