/** Wide strings as the client holds them: ordering, path splitting, containment. */
module Paths {
  import opened Bytes

  type WStr = seq<u16>
  type Path = WStr

  const SEP: u16 := 92     // '\'
  const QUOTE: u16 := 34   // '"'
  const SPACE: u16 := 32
  const DOT: u16 := 46     // '.'
  const DOTS: WStr := [DOT, DOT]
  const LNK: WStr := [DOT, 108, 110, 107]  // ".lnk"
  const ICO: WStr := [DOT, 105, 99, 111]   // ".ico"
  const MAX_PATH := 260

  /** The characters of a buffer of little-endian WCHARs, up to its terminator. */
  function CStr(b: seq<byte>): WStr {
    if |b| < 2 then []
    else
      var c := FromLE16(b[..2]);
      if c == 0 then [] else [c] + CStr(b[2..])
  }

  /** wcsstr finds the part somewhere. */
  predicate Contains(s: WStr, part: WStr) {
    |s| >= |part| && (s[..|part|] == part || (s != [] && Contains(s[1..], part)))
  }

  /** Containment, position by position. */
  ghost predicate Occurs(s: WStr, part: WStr) {
    exists i :: OccursAt(s, part, i)
  }

  predicate OccursAt(s: WStr, part: WStr, i: int) {
    0 <= i && i + |part| <= |s| && s[i..i + |part|] == part
  }

  lemma {:induction false} ContainsExactly(s: WStr, part: WStr)
    ensures Contains(s, part) <==> Occurs(s, part)
    decreases |s|
  {
    if s != [] {
      ContainsExactly(s[1..], part);
      if i :| OccursAt(s[1..], part, i) {
        assert s[1..][i..i + |part|] == s[i + 1..i + 1 + |part|];
        assert OccursAt(s, part, i + 1);
      }
      if i :| OccursAt(s, part, i) {
        if i == 0 {
          assert s[..|part|] == part;
        } else {
          assert s[1..][i - 1..i - 1 + |part|] == s[i..i + |part|];
          assert OccursAt(s[1..], part, i - 1);
        }
      }
      if |s| >= |part| && s[..|part|] == part {
        assert OccursAt(s, part, 0);
      }
    } else {
      assert part == [] ==> OccursAt(s, part, 0);
    }
  }

  lemma ContainsUnit(s: WStr, c: u16)
    ensures Contains(s, [c]) <==> c in s
  {
    ContainsExactly(s, [c]);
    if i :| OccursAt(s, [c], i) {
      assert s[i] == s[i..i + 1][0];
    }
    if c in s {
      var i :| 0 <= i < |s| && s[i] == c;
      assert OccursAt(s, [c], i);
    }
  }

  /** A name that is safe to put into a path and a command line: no quote and no two dots in a row. */
  ghost predicate Clean(s: WStr) {
    34 !in s && forall i | 0 <= i < |s| - 1 :: !(s[i] == 46 && s[i + 1] == 46)
  }

  lemma CleanExactly(s: WStr)
    ensures Clean(s) <==> !Contains(s, DOTS) && !Contains(s, [QUOTE])
  {
    ContainsUnit(s, QUOTE);
    ContainsExactly(s, DOTS);
    if i :| OccursAt(s, DOTS, i) {
      assert s[i] == s[i..i + 2][0] && s[i + 1] == s[i..i + 2][1];
    }
    if i :| 0 <= i < |s| - 1 && s[i] == 46 && s[i + 1] == 46 {
      assert OccursAt(s, DOTS, i);
    }
  }

  /** A string as it is written in the source. */
  function Wide(s: string): WStr {
    seq(|s|, i requires 0 <= i < |s| => Unit(s[i]))
  }

  function Unit(c: char): u16 {
    if (c as int) < 0x1_0000 then c as int else 0xFFFD
  }

  /** What the wire brings for a string: its units, low byte first. */
  function Units(s: WStr): seq<byte> {
    if s == [] then [] else LE16(s[0]) + Units(s[1..])
  }

  /** Reading such a buffer gives the string back, and stops at its terminator whatever stands behind that. */
  lemma {:induction false} CStrReads(s: WStr, behind: seq<byte>)
    requires 0 !in s
    ensures CStr(Units(s)) == s && CStr(Units(s) + [0, 0] + behind) == s
    decreases |s|
  {
    hide LE16, FromLE16;
    if s == [] {
      var all: seq<byte> := [0, 0] + behind;
      assert [] + [0, 0] + behind == all && all[..2] == LE16(0) by {
        ZeroUnit();
      }
    } else {
      assert s[0] in s;
      CStrReads(s[1..], behind);
      var all := Units(s) + [0, 0] + behind;
      assert all[..2] == LE16(s[0]) && all[2..] == Units(s[1..]) + [0, 0] + behind;
      assert Units(s)[..2] == LE16(s[0]) && Units(s)[2..] == Units(s[1..]);
    }
  }

  lemma ZeroUnit()
    ensures LE16(0) == [0, 0]
  {
  }

  /** Whether the string, with its terminator, fits a buffer of MAX_PATH characters. */
  predicate Fits(s: WStr) {
    |s| < MAX_PATH
  }

  predicate EndsWith(s: WStr, end: WStr) {
    |s| >= |end| && s[|s| - |end|..] == end
  }

  // The order of std::wstring

  predicate Less(a: WStr, b: WStr) {
    if b == [] then false
    else if a == [] then true
    else if a[0] != b[0] then a[0] < b[0]
    else Less(a[1..], b[1..])
  }

  /** Two strings neither of which is less are equal, so a set ordered by `<` holds each id once. */
  lemma {:induction false} LessTotal(a: WStr, b: WStr)
    ensures Less(a, b) || Less(b, a) <==> a != b
    ensures !(Less(a, b) && Less(b, a))
    decreases |a|
  {
    if a != [] && b != [] {
      LessTotal(a[1..], b[1..]);
      if a[0] == b[0] && a[1..] == b[1..] {
        assert a == [a[0]] + a[1..] && b == [b[0]] + b[1..];
      }
    }
  }

  /** The order, position by position: at the first difference the smaller unit, or the end, comes first. */
  ghost predicate Precedes(a: WStr, b: WStr) {
    exists n: nat :: DiffersAt(a, b, n) && (n == |a| || a[n] < b[n])
  }

  predicate DiffersAt(a: WStr, b: WStr, n: nat) {
    n <= |a| && n < |b| && a[..n] == b[..n] && (n < |a| ==> a[n] != b[n])
  }

  lemma {:induction false} LessExactly(a: WStr, b: WStr)
    ensures Less(a, b) <==> Precedes(a, b)
    decreases |a|
  {
    if b != [] && a == [] {
      assert DiffersAt(a, b, 0);
    } else if b != [] && a[0] != b[0] {
      assert a[..0] == b[..0] && DiffersAt(a, b, 0);
      forall n: nat | 0 < n <= |a| && n <= |b|
        ensures a[..n] != b[..n]
      {
        assert a[..n][0] != b[..n][0];
      }
    } else if b != [] {
      LessExactly(a[1..], b[1..]);
      forall n: nat | DiffersAt(a[1..], b[1..], n)
        ensures DiffersAt(a, b, n + 1)
      {
        assert a[..n + 1] == [a[0]] + a[1..][..n] && b[..n + 1] == [b[0]] + b[1..][..n];
      }
      forall n: nat | DiffersAt(a, b, n)
        ensures n > 0 && DiffersAt(a[1..], b[1..], n - 1)
      {
        assert a[1..][..n - 1] == a[..n][1..] && b[1..][..n - 1] == b[..n][1..];
      }
      if Precedes(a[1..], b[1..]) {
        var n: nat :| DiffersAt(a[1..], b[1..], n) && (n == |a[1..]| || a[1..][n] < b[1..][n]);
        assert DiffersAt(a, b, n + 1);
      }
      if Precedes(a, b) {
        var n: nat :| DiffersAt(a, b, n) && (n == |a| || a[n] < b[n]);
        assert DiffersAt(a[1..], b[1..], n - 1);
      }
    }
  }

  lemma {:induction false} LessTransitive(a: WStr, b: WStr, c: WStr)
    requires Less(a, b) && Less(b, c)
    ensures Less(a, c)
    decreases |a|
  {
    if a != [] && a[0] == b[0] == c[0] {
      LessTransitive(a[1..], b[1..], c[1..]);
    }
  }

  // Parent and child

  /** find_last_of(L"\\"): the position of the last separator, -1 when there is none. */
  function LastSep(p: Path): (i: int)
    ensures -1 <= i < |p|
    ensures i >= 0 ==> p[i] == SEP
    ensures forall j | i < j < |p| :: p[j] != SEP
  {
    if p == [] then -1
    else if p[|p| - 1] == SEP then |p| - 1
    else LastSep(p[..|p| - 1])
  }

  predicate HasParent(p: Path) {
    LastSep(p) >= 0
  }

  function Parent(p: Path): Path
    requires HasParent(p)
  {
    p[..LastSep(p)]
  }

  function Leaf(p: Path): WStr {
    p[LastSep(p) + 1..]
  }

  function Join(dir: Path, name: WStr): Path {
    dir + [SEP] + name
  }

  /** p names something inside the directory d. */
  predicate IsChild(d: Path, p: Path) {
    HasParent(p) && Parent(p) == d
  }

  lemma JoinSplits(dir: Path, name: WStr)
    requires SEP !in name
    ensures HasParent(Join(dir, name)) && Parent(Join(dir, name)) == dir && Leaf(Join(dir, name)) == name
  {
    var p := Join(dir, name);
    assert p[|dir|] == SEP;
    assert forall j | |dir| < j < |p| :: p[j] == name[j - |dir| - 1];
    assert LastSep(p) == |dir|;
  }

  lemma SplitJoins(p: Path)
    requires HasParent(p)
    ensures Join(Parent(p), Leaf(p)) == p && SEP !in Leaf(p)
  {
  }

  /** p lies somewhere below the directory d. */
  predicate Under(d: Path, p: Path) {
    |d| < |p| && p[..|d|] == d && p[|d|] == SEP
  }

  predicate InTree(d: Path, p: Path) {
    p == d || Under(d, p)
  }

  lemma UnderParent(d: Path, p: Path)
    ensures Under(d, p) ==> HasParent(p)
    ensures HasParent(p) ==> (Under(d, p) <==> InTree(d, Parent(p)))
  {
    if Under(d, p) {
      var i := LastSep(p);
      assert |d| <= i;
      assert p[..i][..|d|] == p[..|d|] == d;
    }
    if HasParent(p) && InTree(d, Parent(p)) {
      assert p[..|d|] == Parent(p)[..|d|];
    }
  }

  lemma UnderTransitive(a: Path, b: Path, c: Path)
    requires InTree(a, b) && InTree(b, c)
    ensures InTree(a, c) && (Under(a, b) || Under(b, c) ==> Under(a, c))
  {
    if Under(a, b) && Under(b, c) {
      assert c[..|a|] == c[..|b|][..|a|];
      assert c[|a|] == c[..|b|][|a|];
    }
  }

  /** Two different children of one directory have no descendant in common. */
  lemma SiblingsApart(d: Path, a: Path, b: Path, p: Path)
    requires IsChild(d, a) && IsChild(d, b) && InTree(a, p) && InTree(b, p)
    ensures a == b
  {
    SplitJoins(a);
    SplitJoins(b);
    assert p[..|a|] == a && p[..|b|] == b;
  }

  // A finite set of paths, in order

  lemma {:induction false} LeastExists(s: set<Path>)
    requires s != {}
    ensures exists m :: m in s && forall x | x in s :: x == m || Less(m, x)
    decreases |s|
  {
    var a :| a in s;
    if s != {a} {
      assert s - {a} != {} by {
        assert s == (s - {a}) + {a};
      }
      LeastExists(s - {a});
      var m :| m in s - {a} && forall x | x in s - {a} :: x == m || Less(m, x);
      LessTotal(a, m);
      if Less(a, m) {
        forall x | x in s
          ensures x == a || Less(a, x)
        {
          if x != a && x != m {
            LessTransitive(a, m, x);
          }
        }
      }
    }
  }

  lemma LeastUnique(s: set<Path>, m: Path, n: Path)
    requires m in s && (forall x | x in s :: x == m || Less(m, x))
    requires n in s && (forall x | x in s :: x == n || Less(n, x))
    ensures m == n
  {
    LessTotal(m, n);
  }

  function Least(s: set<Path>): (m: Path)
    requires s != {}
    ensures m in s && forall x | x in s :: x == m || Less(m, x)
  {
    LeastExists(s);
    assert forall m, n | m in s && n in s && (forall x | x in s :: x == m || Less(m, x))
                         && (forall x | x in s :: x == n || Less(n, x)) :: m == n by {
      forall m, n | m in s && n in s && (forall x | x in s :: x == m || Less(m, x))
                    && (forall x | x in s :: x == n || Less(n, x))
        ensures m == n
      {
        LeastUnique(s, m, n);
      }
    }
    var m :| m in s && forall x | x in s :: x == m || Less(m, x);
    m
  }

  function Ordered(s: set<Path>): (r: seq<Path>)
    ensures forall x :: x in r <==> x in s
    decreases |s|
  {
    if s == {} then [] else [Least(s)] + Ordered(s - {Least(s)})
  }

  /** No path comes twice. */
  lemma {:induction false} OrderedDistinct(s: set<Path>)
    ensures forall i, j | 0 <= i < j < |Ordered(s)| :: Ordered(s)[i] != Ordered(s)[j]
    decreases |s|
  {
    if s != {} {
      var rest := s - {Least(s)};
      OrderedDistinct(rest);
      forall i, j | 0 <= i < j < |Ordered(s)|
        ensures Ordered(s)[i] != Ordered(s)[j]
      {
        assert Ordered(s)[j] == Ordered(rest)[j - 1];
        if i == 0 {
          assert Ordered(s)[j] in Ordered(rest);
        } else {
          assert Ordered(s)[i] == Ordered(rest)[i - 1];
        }
      }
    }
  }
}
