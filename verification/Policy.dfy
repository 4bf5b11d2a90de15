/** Which paths a synchronisation policy selects, and the shortcuts that keep the tree walk small. */
module Policy {
  import opened Paths

  /** Path components and pattern components; "**" stands for any number of components. */
  type Name = string
  type Names = seq<string>

  /** How one pattern component matches one name is a parameter throughout. */
  type Glob = (string, string) -> bool

  // ----- components and slashes -----

  predicate NoSlash(n: Name) {
    forall i :: 0 <= i < |n| ==> n[i] != '/'
  }

  ghost predicate Plain(ns: Names) {
    ns != [] && forall n :: n in ns ==> NoSlash(n)
  }

  function Join(ns: Names): Path
    requires ns != []
  {
    if |ns| == 1 then ns[0] else ns[0] + "/" + Join(ns[1..])
  }

  /** The string test "prefix followed by a slash" is the test "proper prefix" on components. */
  lemma {:induction false} PrefixTestIsComponentwise(dir: Names, rel: Names)
    requires Plain(dir) && Plain(rel)
    ensures Below(Join(rel), Join(dir)) <==> dir < rel
    decreases |dir|
  {
    FirstSlash(rel);
    FirstSlash(dir);
    BelowIsIndexed(Join(rel), Join(dir));
    if |dir| == 1 {
      if dir < rel {
        assert rel[0] == dir[0];
      }
    } else if |rel| > 1 {
      PrefixTestIsComponentwise(dir[1..], rel[1..]);
      var d, r := Join(dir[1..]), Join(rel[1..]);
      assert dir == [dir[0]] + dir[1..] && rel == [rel[0]] + rel[1..];
      if dir[0] == rel[0] {
        assert Join(dir) + "/" == (dir[0] + "/") + (d + "/");
        assert Join(rel) == (rel[0] + "/") + r;
        BelowAfterSamePrefix(dir[0] + "/", d, r);
      } else if Below(Join(rel), Join(dir)) {
        SameHead(dir, rel);
      }
    }
  }

  /** The first slash of a joined path ends its first component. */
  lemma FirstSlash(ns: Names)
    requires Plain(ns)
    ensures |ns[0]| <= |Join(ns)| && Join(ns)[..|ns[0]|] == ns[0]
    ensures |ns| > 1 ==> |ns[0]| < |Join(ns)| && Join(ns)[|ns[0]|] == '/'
    ensures |ns| == 1 ==> |ns[0]| == |Join(ns)|
    ensures NoSlash(ns[0])
  {
  }

  lemma BelowAfterSamePrefix(h: Path, d: Path, r: Path)
    ensures h + (d + "/") <= h + r <==> d + "/" <= r
  {
    assert (h + r)[|h|..] == r;
    if h + (d + "/") <= h + r {
      assert (h + r)[..|h + (d + "/")|][|h|..] == d + "/";
    }
    if d + "/" <= r {
      assert r == (d + "/") + r[|d| + 1..];
      assert h + r == (h + (d + "/")) + r[|d| + 1..];
    }
  }

  lemma SameHead(dir: Names, rel: Names)
    requires Plain(dir) && Plain(rel) && |dir| > 1 && |rel| > 1
    requires Below(Join(rel), Join(dir))
    ensures dir[0] == rel[0]
  {
    FirstSlash(dir);
    FirstSlash(rel);
    BelowIsIndexed(Join(rel), Join(dir));
    var j, k := Join(dir), Join(rel);
    assert k[..|j|] == j;
    assert k[|dir[0]|] == j[|dir[0]|] == '/';
    assert k[..|dir[0]|] == j[..|dir[0]|];
  }

  // ----- glob matching -----

  /** A whole path against a whole pattern. */
  predicate FullMatch(m: Glob, pattern: Names, path: Names)
    decreases |pattern| + |path|
  {
    if pattern == [] then path == []
    else if pattern[0] == "**" then FullMatch(m, pattern[1..], path) || (path != [] && FullMatch(m, pattern, path[1..]))
    else path != [] && m(pattern[0], path[0]) && FullMatch(m, pattern[1..], path[1..])
  }

  /** "**" stands for any number of components, also none. */
  lemma {:induction false} StarsMatchAnyNumber(m: Glob, rest: Names, path: Names)
    ensures FullMatch(m, ["**"] + rest, path) <==> exists k :: 0 <= k <= |path| && FullMatch(m, rest, path[k..])
    decreases |path|
  {
    var pattern := ["**"] + rest;
    assert pattern[1..] == rest && path[0..] == path;
    if path != [] {
      StarsMatchAnyNumber(m, rest, path[1..]);
      if k :| 0 <= k <= |path[1..]| && FullMatch(m, rest, path[1..][k..]) {
        assert path[1..][k..] == path[k + 1..];
      }
      if k :| 0 < k <= |path| && FullMatch(m, rest, path[k..]) {
        assert path[1..][k - 1..] == path[k..];
      }
    }
  }

  /** Without "**" a pattern matches component by component. */
  lemma {:induction false} PlainPatternsMatchPointwise(m: Glob, pattern: Names, path: Names)
    requires "**" !in pattern
    ensures FullMatch(m, pattern, path) <==>
            |pattern| == |path| && forall i :: 0 <= i < |path| ==> m(pattern[i], path[i])
    decreases |pattern|
  {
    if pattern == [] || path == [] {
    } else {
      PlainPatternsMatchPointwise(m, pattern[1..], path[1..]);
      assert forall i :: 0 < i < |path| ==> path[i] == path[1..][i - 1];
      assert forall i :: 0 < i < |pattern| ==> pattern[i] == pattern[1..][i - 1];
    }
  }

  /** Something strictly below the directory can match. */
  ghost predicate CanMatchBelow(m: Glob, pattern: Names, dir: Names) {
    exists more :: more != [] && FullMatch(m, pattern, dir + more)
  }

  /** Every component glob matches some name. */
  ghost predicate Satisfiable(m: Glob, pattern: Names) {
    forall c :: c in pattern && c != "**" ==> exists n :: m(c, n)
  }

  /** The search without its memory. */
  predicate Reaches(m: Glob, pattern: Names, dir: Names)
    decreases |pattern| + |dir|
  {
    if dir == [] then pattern != []
    else if pattern == [] then false
    else if pattern[0] == "**" then Reaches(m, pattern[1..], dir) || Reaches(m, pattern, dir[1..])
    else m(pattern[0], dir[0]) && Reaches(m, pattern[1..], dir[1..])
  }

  /** Completeness: whatever matches below is announced, for any component globs. */
  lemma {:induction false} MatchIsReached(m: Glob, pattern: Names, dir: Names, more: Names)
    requires more != [] && FullMatch(m, pattern, dir + more)
    ensures Reaches(m, pattern, dir)
    decreases |pattern| + |dir|
  {
    if dir == [] {
      assert dir + more == more;
    } else if pattern != [] {
      assert (dir + more)[1..] == dir[1..] + more;
      assert (dir + more)[0] == dir[0];
      if pattern[0] == "**" {
        if FullMatch(m, pattern[1..], dir + more) {
          MatchIsReached(m, pattern[1..], dir, more);
        } else {
          MatchIsReached(m, pattern, dir[1..], more);
        }
      } else {
        MatchIsReached(m, pattern[1..], dir[1..], more);
      }
    }
  }

  /** Some path matches a satisfiable pattern, and a non-empty one if the pattern is not empty. */
  lemma {:induction false} SomeMatch(m: Glob, pattern: Names) returns (path: Names)
    requires Satisfiable(m, pattern)
    ensures FullMatch(m, pattern, path) && (pattern != [] ==> path != [])
    decreases |pattern|
  {
    if pattern == [] {
      path := [];
    } else {
      assert forall c :: c in pattern[1..] ==> c in pattern;
      var rest := SomeMatch(m, pattern[1..]);
      if pattern[0] == "**" {
        if rest != [] {
          path := rest;
        } else {
          path := ["x"];
          assert path[1..] == [];
          assert FullMatch(m, pattern, []);
        }
      } else {
        assert pattern[0] in pattern;
        var n :| m(pattern[0], n);
        path := [n] + rest;
        assert path[1..] == rest;
      }
    }
  }

  /** Soundness: an announced directory has something below it that matches. */
  lemma {:induction false} ReachedHasMatch(m: Glob, pattern: Names, dir: Names) returns (more: Names)
    requires Reaches(m, pattern, dir) && Satisfiable(m, pattern)
    ensures more != [] && FullMatch(m, pattern, dir + more)
    decreases |pattern| + |dir|
  {
    assert forall c :: pattern != [] && c in pattern[1..] ==> c in pattern;
    if dir == [] {
      more := SomeMatch(m, pattern);
      assert dir + more == more;
    } else {
      if pattern[0] == "**" {
        if Reaches(m, pattern[1..], dir) {
          more := ReachedHasMatch(m, pattern[1..], dir);
        } else {
          more := ReachedHasMatch(m, pattern, dir[1..]);
        }
      } else {
        more := ReachedHasMatch(m, pattern[1..], dir[1..]);
      }
      assert (dir + more)[1..] == dir[1..] + more;
      assert (dir + more)[0] == dir[0];
    }
  }

  lemma ReachesIsCanMatchBelow(m: Glob, pattern: Names, dir: Names)
    ensures CanMatchBelow(m, pattern, dir) ==> Reaches(m, pattern, dir)
    ensures Satisfiable(m, pattern) ==> (Reaches(m, pattern, dir) <==> CanMatchBelow(m, pattern, dir))
  {
    if more :| more != [] && FullMatch(m, pattern, dir + more) {
      MatchIsReached(m, pattern, dir, more);
    }
    if Satisfiable(m, pattern) && Reaches(m, pattern, dir) {
      var more := ReachedHasMatch(m, pattern, dir);
    }
  }

  /** The search with its memory of visited states. */
  class PrefixSearch {
    const globs: Glob
    const patterns: Names
    const directories: Names
    var visited: set<(nat, nat)>

    constructor (globs: Glob, patterns: Names, directories: Names)
      ensures this.globs == globs && this.patterns == patterns && this.directories == directories && visited == {}
    {
      this.globs, this.patterns, this.directories, this.visited := globs, patterns, directories, {};
    }

    predicate State(p: nat, d: nat)
      requires p <= |patterns| && d <= |directories|
    {
      Reaches(globs, patterns[p..], directories[d..])
    }

    ghost predicate Grid()
      reads this
    {
      forall s :: s in visited ==> s.0 <= |patterns| && s.1 <= |directories|
    }

    /** Answers false on a state it has met: either it failed there, or it is still inside an earlier state,
        which it can never come back to. */
    method Matches(p: nat, d: nat) returns (found: bool)
      requires p <= |patterns| && d <= |directories| && Grid()
      requires forall s :: s in visited ==> s.0 + s.1 < p + d || !State(s.0, s.1)
      modifies this`visited
      ensures Grid() && old(visited) <= visited
      ensures found <==> State(p, d)
      ensures !found ==> forall s :: s in visited ==> s in old(visited) || !State(s.0, s.1)
      decreases |patterns| + |directories| - p - d
    {
      if (p, d) in visited { return false; }
      visited := visited + {(p, d)};
      if d == |directories| { return p < |patterns|; }
      if p == |patterns| { return false; }
      Unfold(p, d);
      if patterns[p] == "**" {
        found := Matches(p + 1, d);
        if !found {
          found := Matches(p, d + 1);
        }
        return;
      }
      if !globs(patterns[p], directories[d]) { return false; }
      found := Matches(p + 1, d + 1);
    }

    lemma Unfold(p: nat, d: nat)
      requires p < |patterns| && d < |directories|
      ensures State(p, d) <==>
              if patterns[p] == "**" then State(p + 1, d) || State(p, d + 1)
              else globs(patterns[p], directories[d]) && State(p + 1, d + 1)
    {
      assert patterns[p..][1..] == patterns[p + 1..];
      assert directories[d..][1..] == directories[d + 1..];
    }
  }

  method IncludeRuleCanMatchBelowDirectory(m: Glob, pattern: Names, directory: Names) returns (found: bool)
    ensures CanMatchBelow(m, pattern, directory) ==> found
    ensures Satisfiable(m, pattern) ==> (found <==> CanMatchBelow(m, pattern, directory))
    ensures found <==> Reaches(m, pattern, directory)
  {
    var search := new PrefixSearch(m, pattern, directory);
    found := search.Matches(0, 0);
    assert pattern[0..] == pattern && directory[0..] == directory;
    ReachesIsCanMatchBelow(m, pattern, directory);
  }

  // ----- selection -----

  /** The text of a rule is read twice. Matching takes it as a whole, so that a brace group may span slashes: the rule
      then matches what one of its `alternatives` matches. Searching and the plain prefix tests cut it at every slash,
      whatever surrounds the slash: `pattern`. */
  datatype Rule = Rule(pattern: Names, alternatives: seq<Names>, directory: bool, basename: bool)

  /** No brace group of the rule contains a slash: both readings are the same list. */
  predicate Coherent(rule: Rule) {
    rule.alternatives == [rule.pattern]
  }

  /** A root [] is the root of the link itself. */
  datatype SyncPolicy = SyncPolicy(selectionEnabled: bool, includes: seq<Rule>, selectedRoots: set<Names>)

  predicate GlobMatch(m: Glob, rule: Rule, rel: Names)
    requires rel != []
  {
    var subject := if rule.basename then [rel[|rel| - 1]] else rel;
    exists i :: 0 <= i < |rule.alternatives| && FullMatch(m, rule.alternatives[i], subject)
  }

  /** On rules without a slash in a brace group, the search below a directory answers for the rule itself. */
  lemma SearchAgreesWithMatching(m: Glob, rule: Rule, dir: Names)
    requires Coherent(rule) && !rule.basename && Satisfiable(m, rule.pattern)
    ensures Reaches(m, rule.pattern, dir) <==> exists more: Names :: more != [] && GlobMatch(m, rule, dir + more)
  {
    hide FullMatch, Reaches;
    ReachesIsCanMatchBelow(m, rule.pattern, dir);
    if Reaches(m, rule.pattern, dir) {
      var more :| more != [] && FullMatch(m, rule.pattern, dir + more);
      assert FullMatch(m, rule.alternatives[0], dir + more);
      assert GlobMatch(m, rule, dir + more);
    }
    if more: Names :| more != [] && GlobMatch(m, rule, dir + more) {
      assert FullMatch(m, rule.pattern, dir + more);
    }
  }

  predicate MatchesRule(m: Glob, rule: Rule, rel: Names, isDir: bool)
    requires rel != []
  {
    || (rule.directory && ((isDir && rel == rule.pattern) || rule.pattern < rel))
    || (isDir && |rule.pattern| >= 2 && rule.pattern == rel + ["**"])
    || (GlobMatch(m, rule, rel) && (!rule.directory || isDir))
  }

  /** A directory rule without metacharacters is the directory and all below it, and no file of that name. */
  lemma DirectoryRuleExactly(m: Glob, rule: Rule, rel: Names, isDir: bool)
    requires rel != [] && rule.directory && !rule.basename && Coherent(rule)
    requires forall c :: c in rule.pattern ==> c != "**" && forall n :: m(c, n) <==> c == n
    ensures MatchesRule(m, rule, rel, isDir) <==> rule.pattern < rel || (isDir && rule.pattern == rel)
  {
    PlainPatternsMatchPointwise(m, rule.pattern, rel);
    assert rule.alternatives[0] == rule.pattern;
    assert forall i :: 0 <= i < |rule.pattern| ==> rule.pattern[i] in rule.pattern;
    if GlobMatch(m, rule, rel) { assert rule.pattern == rel; }
    assert rule.pattern == rel + ["**"] ==> "**" in rule.pattern;
  }

  /** A file matches any other rule exactly when one of its alternatives matches the path, or the last name of it for a
      bare name; a directory also when the rule is that directory followed by "**". */
  lemma PatternRuleExactly(m: Glob, rule: Rule, rel: Names, isDir: bool)
    requires rel != [] && !rule.directory
    ensures var subject := if rule.basename then [rel[|rel| - 1]] else rel;
            MatchesRule(m, rule, rel, isDir) <==>
            || (exists a :: a in rule.alternatives && FullMatch(m, a, subject))
            || (isDir && |rel| < |rule.pattern| && rule.pattern == rel + ["**"])
  {
    hide FullMatch;
    var subject := if rule.basename then [rel[|rel| - 1]] else rel;
    if a :| a in rule.alternatives && FullMatch(m, a, subject) {
      var i :| 0 <= i < |rule.alternatives| && rule.alternatives[i] == a;
      assert GlobMatch(m, rule, rel);
    }
  }

  predicate ExplicitlyIncludes(m: Glob, policy: SyncPolicy, rel: Names, isDir: bool)
    requires rel != []
  {
    exists i :: 0 <= i < |policy.includes| && MatchesRule(m, policy.includes[i], rel, isDir)
  }

  predicate IncludeCanMatchBelow(m: Glob, policy: SyncPolicy, dir: Names) {
    exists i :: 0 <= i < |policy.includes| && !policy.includes[i].basename
         && Reaches(m, policy.includes[i].pattern, dir)
  }

  predicate RootSelects(policy: SyncPolicy, rel: Names, isDir: bool) {
    exists root :: root in policy.selectedRoots && (if root == [] then !isDir && |rel| == 1 else root <= rel)
  }

  predicate Selects(m: Glob, policy: SyncPolicy, rel: Names, isDir: bool)
    requires rel != []
  {
    !policy.selectionEnabled || ExplicitlyIncludes(m, policy, rel, isDir) || RootSelects(policy, rel, isDir)
  }

  /** A directory that is entered although it is not selected itself. */
  predicate Traverses(m: Glob, policy: SyncPolicy, dir: Names)
    requires dir != []
  {
    IncludeCanMatchBelow(m, policy, dir) || exists root :: root in policy.selectedRoots && dir < root
  }

  predicate Entered(m: Glob, policy: SyncPolicy, dir: Names)
    requires dir != []
  {
    Selects(m, policy, dir, true) || Traverses(m, policy, dir)
  }

  method SelectsPath(m: Glob, policy: SyncPolicy, rel: Names, isDir: bool) returns (selected: bool, traverse: bool)
    requires rel != []
    ensures selected <==> Selects(m, policy, rel, isDir)
    ensures traverse <==> selected || (isDir && Traverses(m, policy, rel))
  {
    hide FullMatch, Reaches, MatchesRule;
    if !policy.selectionEnabled { return true, true; }
    if ExplicitlyIncludes(m, policy, rel, isDir) { return true, true; }
    traverse := isDir && IncludeCanMatchBelow(m, policy, rel);
    ghost var below := traverse;
    var todo := policy.selectedRoots;
    while todo != {}
      invariant todo <= policy.selectedRoots
      invariant forall root :: root in policy.selectedRoots && root !in todo ==>
                  !(if root == [] then !isDir && |rel| == 1 else root <= rel)
      invariant traverse <==>
                below || (isDir && exists root :: root in policy.selectedRoots && root !in todo && rel < root)
    {
      var root :| root in todo;
      todo := todo - {root};
      if root == [] {
        if !isDir && |rel| == 1 { return true, true; }
        continue;
      }
      if root <= rel { return true, true; }
      if isDir && rel < root {
        traverse := true;
      }
    }
    selected := false;
  }

  // ----- the pruned walk -----

  /** A pattern without metacharacters: each component is a name and matches itself. */
  ghost predicate Literal(m: Glob, pattern: Names) {
    pattern != [] && forall c :: c in pattern ==> c != "**" && m(c, c)
  }

  lemma {:induction false} LiteralReaches(m: Glob, pattern: Names, dir: Names)
    requires Literal(m, pattern) && dir < pattern
    ensures Reaches(m, pattern, dir)
    decreases |dir|
  {
    if dir == [] {
    } else {
      assert pattern[0] in pattern;
      assert forall c :: c in pattern[1..] ==> c in pattern;
      LiteralReaches(m, pattern[1..], dir[1..]);
    }
  }

  /** A rule the search can follow to whatever it selects: a path glob without a slash in a brace group, or a literal
      directory; one that is only a name is matched at the top of the link. */
  ghost predicate Searched(m: Glob, rule: Rule) {
    if rule.directory then Literal(m, rule.pattern) && (rule.basename ==> |rule.pattern| == 1)
    else !rule.basename && Coherent(rule)
  }

  /** Such a rule accounts for the file. */
  ghost predicate Followable(m: Glob, rule: Rule, rel: Names)
    requires rel != []
  {
    Searched(m, rule) && if rule.directory then rule.pattern < rel else GlobMatch(m, rule, rel)
  }

  /** The walk enters every directory above a file that a root, a path glob or a literal directory selects. */
  lemma PrunedWalkReaches(m: Glob, policy: SyncPolicy, file: Names, dir: Names)
    requires dir != [] && dir < file
    requires || !policy.selectionEnabled || RootSelects(policy, file, false)
             || exists i :: 0 <= i < |policy.includes| && Followable(m, policy.includes[i], file)
    ensures Entered(m, policy, dir)
  {
    hide FullMatch, Reaches;
    if policy.selectionEnabled {
      if RootSelects(policy, file, false) {
        var root :| root in policy.selectedRoots && (if root == [] then |file| == 1 else root <= file);
        if |root| <= |dir| {
          assert root == file[..|root|] && dir == file[..|dir|];
          assert root <= dir;
        } else {
          assert dir < root;
        }
      } else {
        var i :| 0 <= i < |policy.includes| && Followable(m, policy.includes[i], file);
        var rule := policy.includes[i];
        if !rule.directory {
          assert file == dir + file[|dir|..];
          MatchIsReached(m, rule.pattern, dir, file[|dir|..]);
        } else if |dir| < |rule.pattern| {
          assert dir < rule.pattern;
          LiteralReaches(m, rule.pattern, dir);
        } else {
          assert MatchesRule(m, rule, dir, true) by {
            assert dir[..|rule.pattern|] == rule.pattern;
          }
        }
      }
    }
  }

  /** A basename rule is not searched for: the file it names is selected, the directory above it is not entered. */
  lemma BasenameRuleIsNotSearched(m: Glob, glob: string, dir: string, name: string)
    requires glob != "**" && m(glob, name) && !m(glob, dir)
    ensures var policy := SyncPolicy(true, [Rule([glob], [[glob]], false, true)], {});
            Selects(m, policy, [dir, name], false) && !Entered(m, policy, [dir])
  {
    var rule := Rule([glob], [[glob]], false, true);
    var policy := SyncPolicy(true, [rule], {});
    assert policy.includes[0] == rule;
    assert [name][1..] == [] && [glob][1..] == [] && [dir][1..] == [];
    assert FullMatch(m, [], []);
    assert FullMatch(m, rule.alternatives[0], [name]) && !FullMatch(m, rule.alternatives[0], [dir]);
    assert GlobMatch(m, rule, [dir, name]);
    assert MatchesRule(m, policy.includes[0], [dir, name], false);
    assert !MatchesRule(m, rule, [dir], true);
  }

  datatype Node = FileNode(name: Name) | DirNode(name: Name, kids: seq<Node>)

  /** Every file of a directory listing, with its path. */
  ghost function AllFiles(kids: seq<Node>, at: Names): set<Names>
    decreases kids
  {
    if kids == [] then {}
    else (match kids[0]
          case FileNode(n) => {at + [n]}
          case DirNode(n, inner) => AllFiles(inner, at + [n]))
         + AllFiles(kids[1..], at)
  }

  /** The walk: a directory that is neither selected nor traversed is not opened at all. */
  ghost function Walk(m: Glob, policy: SyncPolicy, kids: seq<Node>, at: Names): set<Names>
    decreases kids
  {
    if kids == [] then {}
    else (match kids[0]
          case FileNode(n) => if Selects(m, policy, at + [n], false) then {at + [n]} else {}
          case DirNode(n, inner) =>
            if Entered(m, policy, at + [n]) then Walk(m, policy, inner, at + [n]) else {})
         + Walk(m, policy, kids[1..], at)
  }

  /** Every include rule is one the search can follow. */
  ghost predicate Searchable(m: Glob, policy: SyncPolicy) {
    forall i :: 0 <= i < |policy.includes| ==> Searched(m, policy.includes[i])
  }

  lemma {:induction false} FilesLieBelow(kids: seq<Node>, at: Names, f: Names)
    requires f in AllFiles(kids, at)
    ensures at < f
    decreases kids
  {
    match kids[0] {
      case FileNode(n) => if f != at + [n] { FilesLieBelow(kids[1..], at, f); }
      case DirNode(n, inner) =>
        if f in AllFiles(inner, at + [n]) {
          FilesLieBelow(inner, at + [n], f);
        } else {
          FilesLieBelow(kids[1..], at, f);
        }
    }
  }

  lemma SelectedIsFollowable(m: Glob, policy: SyncPolicy, f: Names)
    requires f != [] && Searchable(m, policy) && Selects(m, policy, f, false)
    ensures || !policy.selectionEnabled || RootSelects(policy, f, false)
            || exists i :: 0 <= i < |policy.includes| && Followable(m, policy.includes[i], f)
  {
    hide FullMatch;
    if ExplicitlyIncludes(m, policy, f, false) {
      var i :| 0 <= i < |policy.includes| && MatchesRule(m, policy.includes[i], f, false);
      assert Followable(m, policy.includes[i], f);
    }
  }

  /** Every directory between the start of the walk and the file is entered. */
  ghost predicate WayIsOpen(m: Glob, policy: SyncPolicy, at: Names, f: Names) {
    forall d :: |at| < |d| && d < f ==> Entered(m, policy, d)
  }

  /** For every policy and every tree: the walk finds a file exactly when the policy selects it and the way is open. */
  lemma {:induction false} WalkFindsExactly(m: Glob, policy: SyncPolicy, kids: seq<Node>, at: Names, f: Names)
    ensures f in Walk(m, policy, kids, at) <==>
            f in AllFiles(kids, at) && f != [] && Selects(m, policy, f, false) && WayIsOpen(m, policy, at, f)
    decreases kids
  {
    hide Selects, Entered;
    if kids == [] {
    } else {
      WalkFindsExactly(m, policy, kids[1..], at, f);
      match kids[0] {
        case FileNode(n) =>
        case DirNode(n, inner) =>
          WalkFindsExactly(m, policy, inner, at + [n], f);
          if f in AllFiles(inner, at + [n]) {
            FilesLieBelow(inner, at + [n], f);
            OneDirectoryMore(m, policy, at, n, f);
          }
      }
    }
  }

  lemma OneDirectoryMore(m: Glob, policy: SyncPolicy, at: Names, n: Name, f: Names)
    requires at + [n] < f
    ensures WayIsOpen(m, policy, at, f) <==> Entered(m, policy, at + [n]) && WayIsOpen(m, policy, at + [n], f)
  {
    hide Entered;
    forall d | |at| < |d| && d < f && |d| <= |at| + 1 ensures d == at + [n] {
      assert d == f[..|d|] && at + [n] == f[..|at| + 1];
    }
  }

  /** When every include rule can be followed, the pruned walk loses nothing: it finds exactly the selected files. */
  lemma PrunedWalkIsComplete(m: Glob, policy: SyncPolicy, kids: seq<Node>, at: Names, f: Names)
    requires Searchable(m, policy)
    ensures f in Walk(m, policy, kids, at) <==> f in AllFiles(kids, at) && f != [] && Selects(m, policy, f, false)
  {
    hide Selects, Entered, Walk, Searchable;
    WalkFindsExactly(m, policy, kids, at, f);
    if f != [] && Selects(m, policy, f, false) {
      SelectedIsFollowable(m, policy, f);
      forall d | |at| < |d| && d < f ensures Entered(m, policy, d) {
        PrunedWalkReaches(m, policy, f, d);
      }
    }
  }

  /** Without a selection the walk finds every file. */
  lemma UnlimitedWalkFindsAll(m: Glob, policy: SyncPolicy, kids: seq<Node>, at: Names, f: Names)
    requires !policy.selectionEnabled
    ensures f in Walk(m, policy, kids, at) <==> f in AllFiles(kids, at)
  {
    hide Walk;
    WalkFindsExactly(m, policy, kids, at, f);
    if f in AllFiles(kids, at) { FilesLieBelow(kids, at, f); }
  }

  /** The pattern {conf/a,conf/b}/x selects conf/a/x, but its first piece "{conf" is no glob: conf is not entered. */
  lemma BraceGroupIsNotSearched(m: Glob)
    requires m("conf", "conf") && m("a", "a") && m("x", "x") && !m("{conf", "conf")
    ensures var rule := Rule(["{conf", "a,conf", "b}", "x"], [["conf", "a", "x"], ["conf", "b", "x"]], false, false);
            var policy := SyncPolicy(true, [rule], {});
            !Coherent(rule) && Selects(m, policy, ["conf", "a", "x"], false) && !Entered(m, policy, ["conf"])
  {
    var rule := Rule(["{conf", "a,conf", "b}", "x"], [["conf", "a", "x"], ["conf", "b", "x"]], false, false);
    var policy := SyncPolicy(true, [rule], {});
    assert policy.includes[0] == rule;
    LiteralMatches(m, ["conf", "a", "x"]);
    assert FullMatch(m, rule.alternatives[0], ["conf", "a", "x"]);
    assert GlobMatch(m, rule, ["conf", "a", "x"]);
    assert MatchesRule(m, policy.includes[0], ["conf", "a", "x"], false);
    assert ["conf"][1..] == [];
    assert !FullMatch(m, rule.alternatives[0], ["conf"]) && !FullMatch(m, rule.alternatives[1], ["conf"]);
    assert !Reaches(m, rule.pattern, ["conf"]);
    assert !MatchesRule(m, rule, ["conf"], true);
  }

  /** A literal pattern matches itself. */
  lemma {:induction false} LiteralMatches(m: Glob, pattern: Names)
    requires forall c :: c in pattern ==> c != "**" && m(c, c)
    ensures FullMatch(m, pattern, pattern)
    decreases |pattern|
  {
    if pattern == [] {
    } else {
      assert pattern[0] in pattern;
      assert forall c :: c in pattern[1..] ==> c in pattern;
      LiteralMatches(m, pattern[1..]);
    }
  }

  // ----- the index of Compose directories -----

  /** The linear scan: some manifest lies below the directory. */
  ghost predicate ContainsCompose(compose: set<Path>, directory: Path) {
    exists c :: c in compose && Below(c, directory)
  }

  /** A catalogued manifest has a relative path that does not start with a dot component. */
  predicate Relative(p: Path) {
    !Below(p, "") && !Below(p, ".")
  }

  /** Climbs from every manifest to the root and collects the directories on the way. */
  method ComposeDirectoryIndex(compose: set<Path>) returns (index: set<Path>)
    ensures forall d :: d in index <==> exists c :: c in compose && ProperAncestor(d, c)
  {
    index := {};
    var todo := compose;
    while todo != {}
      invariant todo <= compose
      invariant forall d :: d in index <==> exists c :: c in compose && c !in todo && ProperAncestor(d, c)
    {
      var manifest :| manifest in todo;
      todo := todo - {manifest};
      var ancestors := DirectoriesAbove(manifest);
      index := index + ancestors;
    }
  }

  method DirectoriesAbove(manifest: Path) returns (above: set<Path>)
    ensures forall d :: d in above <==> ProperAncestor(d, manifest)
  {
    hide ProperAncestor;
    above := {};
    var directory := Dir(manifest);
    ghost var below := manifest;
    while directory != "." && directory != ""
      invariant directory == Dir(below)
      invariant forall d :: ProperAncestor(d, manifest) <==> d in above || ProperAncestor(d, below)
      decreases |below|
    {
      forall d { AncestorStep(d, below); }
      above := above + {directory};
      below := directory;
      directory := Dir(directory);
    }
    forall d ensures !ProperAncestor(d, below) {
      NoAncestorAtTheTop(d, below);
    }
  }

  lemma NoAncestorAtTheTop(d: Path, p: Path)
    requires Dir(p) == "." || Dir(p) == ""
    ensures !ProperAncestor(d, p)
  {
    AncestorStep(d, p);
  }

  /** The index answers every directory query exactly like the scan. */
  lemma IndexAnswersLikeTheScan(compose: set<Path>, index: set<Path>, directory: Path)
    requires forall c :: c in compose ==> Relative(c)
    requires forall d :: d in index <==> exists c :: c in compose && ProperAncestor(d, c)
    ensures directory in index <==> ContainsCompose(compose, directory)
  {
    if ContainsCompose(compose, directory) {
      var c :| c in compose && Below(c, directory);
      assert Relative(c);
      assert ProperAncestor(directory, c);
    }
  }
}
