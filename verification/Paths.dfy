/** Slash-separated relative paths as the inventories store them: plain strings,
    with the string tests (prefix followed by a slash, last slash) the sources use. */
module Paths {

  type Path = string

  /** Index of the last slash of p, or -1. */
  function LastSlash(p: Path): (k: int)
    ensures -1 <= k < |p|
  {
    if p == "" then -1
    else if p[|p| - 1] == '/' then |p| - 1
    else LastSlash(p[..|p| - 1])
  }

  lemma {:induction false} LastSlashIsLast(p: Path)
    ensures LastSlash(p) >= 0 ==> p[LastSlash(p)] == '/'
    ensures forall i :: LastSlash(p) < i < |p| ==> p[i] != '/'
  {
    if p != "" && p[|p| - 1] != '/' {
      LastSlashIsLast(p[..|p| - 1]);
    }
  }

  /** The directory part of a relative path; "." when there is none. */
  function Dir(p: Path): Path {
    var k := LastSlash(p);
    if k <= 0 then "." else p[..k]
  }

  function Base(p: Path): Path {
    p[LastSlash(p) + 1..]
  }

  /** d is a directory strictly above p. */
  predicate Below(p: Path, d: Path) {
    d + "/" <= p
  }

  predicate ProperAncestor(d: Path, p: Path) {
    d != "" && d != "." && Below(p, d)
  }

  lemma BelowIsIndexed(p: Path, d: Path)
    ensures Below(p, d) <==> |d| < |p| && p[..|d|] == d && p[|d|] == '/'
  {
    if |d| < |p| {
      assert (d + "/")[|d|] == '/';
      assert p[..|d| + 1] == p[..|d|] + [p[|d|]];
    }
  }

  /** Climbing with Dir meets exactly the proper ancestors. */
  lemma AncestorStep(d: Path, p: Path)
    ensures ProperAncestor(d, p) <==> Dir(p) != "." && (d == Dir(p) || ProperAncestor(d, Dir(p)))
    ensures Dir(p) == "." || |Dir(p)| < |p|
  {
    BelowIsIndexed(p, d);
    LastSlashIsLast(p);
    var k := LastSlash(p);
    if k > 0 {
      BelowIsIndexed(p[..k], d);
      if |d| < k {
        assert p[..k][..|d|] == p[..|d|];
      }
    }
  }

  /** Two directories above the same file are one above the other, unless equal. */
  lemma AncestorsAreComparable(d: Path, e: Path, p: Path)
    requires Below(p, d) && Below(p, e)
    ensures d == e || Below(d, e) || Below(e, d)
  {
    BelowIsIndexed(p, d);
    BelowIsIndexed(p, e);
    BelowIsIndexed(d, e);
    BelowIsIndexed(e, d);
    if |d| <= |e| {
      assert p[..|e|][..|d|] == p[..|d|];
    } else {
      assert p[..|d|][..|e|] == p[..|e|];
    }
  }

  function CountSlashes(p: Path): nat {
    if p == "" then 0 else (if p[0] == '/' then 1 else 0) + CountSlashes(p[1..])
  }

  lemma {:induction false} CountSlashesConcat(p: Path, q: Path)
    ensures CountSlashes(p + q) == CountSlashes(p) + CountSlashes(q)
  {
    if p == "" {
      assert p + q == q;
    } else {
      assert (p + q)[1..] == p[1..] + q;
      CountSlashesConcat(p[1..], q);
    }
  }

  lemma DeeperHasMoreSlashes(d: Path, e: Path)
    requires Below(e, d)
    ensures CountSlashes(d) < CountSlashes(e)
  {
    assert e == (d + "/") + e[|d| + 1..];
    CountSlashesConcat(d + "/", e[|d| + 1..]);
    CountSlashesConcat(d, "/");
  }

  // ----- byte order of strings, as sort.Strings uses it -----

  predicate Less(a: string, b: string) {
    b != "" && (a == "" || a[0] < b[0] || (a[0] == b[0] && Less(a[1..], b[1..])))
  }

  lemma {:induction false} LessIsTotal(a: string, b: string)
    ensures a == b || Less(a, b) || Less(b, a)
  {
    if a != "" && b != "" && a[0] == b[0] {
      LessIsTotal(a[1..], b[1..]);
      assert a == [a[0]] + a[1..] && b == [b[0]] + b[1..];
    }
  }

  lemma {:induction false} LessIsTransitive(a: string, b: string, c: string)
    requires Less(a, b) && Less(b, c)
    ensures Less(a, c)
  {
    if a != "" && a[0] == b[0] && b[0] == c[0] {
      LessIsTransitive(a[1..], b[1..], c[1..]);
    }
  }

  lemma {:induction false} LessIsIrreflexive(a: string)
    ensures !Less(a, a)
  {
    if a == "" {
    } else {
      LessIsIrreflexive(a[1..]);
    }
  }

  /** The texts agree up to k, and there a ends or has the smaller character. */
  predicate DecidesAt(a: string, b: string, k: int) {
    0 <= k <= |a| && k < |b| && a[..k] == b[..k] && (k == |a| || a[k] < b[k])
  }

  /** That order: the first place where the texts differ decides, and a text comes before its continuations. */
  lemma {:induction false} LessIsLexicographic(a: string, b: string)
    ensures Less(a, b) <==> exists k :: DecidesAt(a, b, k)
    decreases |a|
  {
    if a == "" || b == "" || a[0] != b[0] {
      if Less(a, b) { assert DecidesAt(a, b, 0); }
    } else {
      LessIsLexicographic(a[1..], b[1..]);
      if k :| DecidesAt(a[1..], b[1..], k) {
        assert a[..k + 1] == [a[0]] + a[1..][..k] && b[..k + 1] == [b[0]] + b[1..][..k];
        assert DecidesAt(a, b, k + 1);
      }
      if k :| DecidesAt(a, b, k) {
        assert a[1..][..k - 1] == a[..k][1..] && b[1..][..k - 1] == b[..k][1..];
        assert DecidesAt(a[1..], b[1..], k - 1);
      }
    }
  }

  // ----- control manifests -----

  function LowerChar(c: char): char {
    if 'A' <= c <= 'Z' then c + ('a' - 'A')
    else if c == '\U{0130}' then 'i'
    else c
  }

  /** Lower-casing s gives the lower-case text. */
  predicate LowersTo(s: string, text: string) {
    if s == "" || text == "" then s == text
    else LowerChar(s[0]) == text[0] && LowersTo(s[1..], text[1..])
  }

  /** Provisioning manifests live on the Git side only. */
  predicate IsControl(p: Path) {
    LowersTo(Base(p), "provision.yml") || LowersTo(Base(p), "provision.yaml")
  }

  lemma {:induction false} LowersPointwise(s: string, text: string)
    ensures LowersTo(s, text) <==> |s| == |text| && forall i :: 0 <= i < |s| ==> LowerChar(s[i]) == text[i]
  {
    hide LowerChar;
    if s == "" || text == "" {
    } else {
      LowersPointwise(s[1..], text[1..]);
      assert forall i :: 0 < i < |s| ==> s[i] == s[1..][i - 1];
      assert forall i :: 0 < i < |text| ==> text[i] == text[1..][i - 1];
    }
  }

  /** The last name of a path, whatever lies before it. */
  lemma BaseIsTheLastName(d: Path, n: string)
    requires '/' !in n
    ensures Base(n) == n && Base(d + "/" + n) == n
  {
    var p := d + "/" + n;
    LastSlashIsLast(n);
    LastSlashIsLast(p);
    assert p[|d|] == '/' && forall i :: |d| < i < |p| ==> p[i] == n[i - |d| - 1];
    assert p[|d| + 1..] == n;
  }

  /** A control manifest is a file named provision.yml or provision.yaml, in any directory and any case. */
  lemma ControlExactly(d: Path, n: string)
    requires '/' !in n
    ensures IsControl(d + "/" + n) <==> IsControl(n)
    ensures IsControl(n) <==>
            exists text :: text in {"provision.yml", "provision.yaml"} && |n| == |text|
                 && forall i :: 0 <= i < |n| ==> LowerChar(n[i]) == text[i]
  {
    hide LowersTo, LowerChar, Base;
    BaseIsTheLastName(d, n);
    LowersPointwise(n, "provision.yml");
    LowersPointwise(n, "provision.yaml");
  }
}
