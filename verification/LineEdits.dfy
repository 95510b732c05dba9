/** What the editor's commands do to the lines of the file. */
module LineEdits {
  function Inserted<T>(s: seq<T>, k: nat, x: T): seq<T>
    requires k <= |s|
  {
    s[..k] + [x] + s[k..]
  }

  lemma InsertedAt<T>(s: seq<T>, k: nat, x: T, r: seq<T>)
    requires k <= |s| && r == Inserted(s, k, x)
    ensures |r| == |s| + 1 && forall i :: 0 <= i < |r| ==> r[i] == if i < k then s[i] else if i == k then x else s[i - 1]
  {
  }

  lemma InsertedIn<T>(s: seq<T>, k: nat, x: T, r: seq<T>)
    requires k <= |s| && r == Inserted(s, k, x)
    ensures forall i :: 0 <= i < |r| ==> r[i] == x || r[i] in s
  {
  }

  /** An element taken out and another put in its place. */
  lemma Renewed<T>(s: seq<T>, k: nat, m: seq<T>, x: T, r: seq<T>)
    requires k < |s| && m == Without(s, k, k + 1) && r == Inserted(m, k, x)
    ensures r == s[k := x]
  {
  }

  /** What stands before an element that is taken out. */
  lemma WithoutOne<T>(s: seq<T>, k: nat, r: seq<T>)
    requires k < |s| && r == Without(s, k, k + 1)
    ensures |r| == |s| - 1 && (k > 0 ==> r[k - 1] == s[k - 1])
  {
  }

  lemma InsertedSet<T>(s: seq<T>, k: nat, x: T, y: T)
    requires k <= |s|
    ensures Inserted(s, k, x)[k := y] == Inserted(s, k, y)
    ensures k < |s| ==> Inserted(Without(s, k, k + 1), k, x)[k := y] == s[k := y]
  {
  }

  lemma InsertedLast<T>(s: seq<T>, x: T)
    ensures Inserted(s, |s|, x) == s + [x]
  {
  }

  /** Without the elements from lo up to hi. */
  function Without<T>(s: seq<T>, lo: nat, hi: nat): seq<T>
    requires lo <= hi <= |s|
  {
    s[..lo] + s[hi..]
  }

  lemma WithoutAt<T>(s: seq<T>, lo: nat, hi: nat, r: seq<T>)
    requires lo <= hi <= |s| && r == Without(s, lo, hi)
    ensures |r| == |s| - (hi - lo) && forall i :: 0 <= i < |r| ==> r[i] == if i < lo then s[i] else s[i + (hi - lo)]
  {
  }

  /** Taking one more element out after a block. */
  lemma WithoutMore<T>(s: seq<T>, lo: nat, hi: nat)
    requires lo <= hi < |s|
    ensures |Without(s, lo, hi)| == |s| - (hi - lo) && Without(s, lo, hi)[lo] == s[hi]
    ensures lo + 1 < |Without(s, lo, hi)| ==> Without(s, lo, hi)[lo + 1] == s[hi + 1]
    ensures Without(Without(s, lo, hi), lo, lo + 1) == Without(s, lo, hi + 1)
  {
  }

  lemma WithoutAll<T>(s: seq<T>, lo: nat)
    requires lo <= |s|
    ensures |Without(s, lo, |s|)| == lo
  {
  }

  /** The neighbouring blocks [a, b) and [b, c) change places. */
  function Swapped<T>(s: seq<T>, a: nat, b: nat, c: nat): (r: seq<T>)
    requires a <= b <= c <= |s|
    ensures |r| == |s|
  {
    s[..a] + s[b..c] + s[a..b] + s[c..]
  }

  /** The block [lo, hi) taken out and put back so that it follows what stood before position t. */
  function Moved<T>(s: seq<T>, lo: nat, hi: nat, t: nat): (r: seq<T>)
    requires lo <= hi <= |s| && t <= |s| && (t <= lo || hi <= t)
    ensures |r| == |s|
  {
    if t <= lo then Swapped(s, t, lo, hi) else Swapped(s, lo, hi, t)
  }

  /** Where an element comes from when two blocks change places. */
  function Source(a: nat, b: nat, c: nat, k: nat): (r: nat)
    requires a <= b <= c
    ensures k < a || c <= k ==> r == k
    ensures a < b < c && a <= k < c ==> r != k
  {
    if k < a || c <= k then k else if k < a + c - b then k - a + b else k - (c - b)
  }

  lemma SwappedFrom<T>(s: seq<T>, a: nat, b: nat, c: nat, k: nat)
    requires a <= b <= c <= |s| && k < |s|
    ensures Source(a, b, c, k) < |s| && Swapped(s, a, b, c)[k] == s[Source(a, b, c, k)]
  {
  }

  /** A move is a reordering: every line is there as often as before. */
  lemma MovedKeeps<T>(s: seq<T>, lo: nat, hi: nat, t: nat)
    requires lo <= hi <= |s| && t <= |s| && (t <= lo || hi <= t)
    ensures multiset(Moved(s, lo, hi, t)) == multiset(s)
  {
    if t <= lo {
      SwappedKeeps(s, t, lo, hi);
    } else {
      SwappedKeeps(s, lo, hi, t);
    }
  }

  lemma SwappedKeeps<T>(s: seq<T>, a: nat, b: nat, c: nat)
    requires a <= b <= c <= |s|
    ensures multiset(Swapped(s, a, b, c)) == multiset(s)
  {
    var u, v, w, x := s[..a], s[a..b], s[b..c], s[c..];
    assert s == u + (v + (w + x));
    assert Swapped(s, a, b, c) == u + (w + (v + x));
  }

  /** Three links of a chain are redirected round: what followed y follows x, what followed z follows y, what followed x follows z. */
  predicate Tears(x: nat, y: nat, z: nat) {
    x != z && !(x < y < z || y < z < x || z < x < y)
  }

  /** Unless that tears the chain, two neighbouring blocks have changed places, or nothing has. */
  function Rotated<T>(s: seq<T>, x: nat, y: nat, z: nat): (r: seq<T>)
    requires x <= |s| && y <= |s| && z <= |s| && !Tears(x, y, z)
    ensures |r| == |s|
  {
    if x == z then s
    else if x < y < z then Swapped(s, x, y, z)
    else if y < z < x then Swapped(s, y, z, x)
    else Swapped(s, z, x, y)
  }

  function Lowest(x: nat, y: nat, z: nat): nat {
    if x <= y && x <= z then x else if y <= z then y else z
  }

  function Highest(x: nat, y: nat, z: nat): nat {
    if x >= y && x >= z then x else if y >= z then y else z
  }

  /** For a block and a target outside it, this is the move. */
  lemma RotatedIsMoved<T>(s: seq<T>, lo: nat, hi: nat, t: nat)
    requires lo < hi <= |s| && t <= |s| && (t <= lo || hi < t)
    ensures !Tears(lo, hi, t) && Rotated(s, lo, hi, t) == Moved(s, lo, hi, t)
  {
  }

  lemma SwappedTwice<T>(s: seq<T>, a: nat, b: nat, c: nat)
    requires a <= b <= c <= |s|
    ensures Swapped(Swapped(s, a, b, c), a, a + c - b, c) == s
  {
    var r := Swapped(s, a, b, c);
    forall k | 0 <= k < |s|
      ensures Swapped(r, a, a + c - b, c)[k] == s[k]
    {
      SwappedFrom(r, a, a + c - b, c, k);
      SwappedFrom(s, a, b, c, Source(a, a + c - b, c, k));
    }
  }

  /** Moving a block is undone by moving it back. */
  lemma MoveBack<T>(s: seq<T>, lo: nat, hi: nat, t: nat)
    requires lo < hi <= |s| && t <= |s| && (t <= lo || hi <= t)
    ensures t <= lo ==> Moved(Moved(s, lo, hi, t), t, t + hi - lo, hi) == s
    ensures hi <= t ==> Moved(Moved(s, lo, hi, t), t - (hi - lo), t, lo) == s
  {
    if t <= lo {
      SwappedTwice(s, t, lo, hi);
    } else {
      SwappedTwice(s, lo, hi, t);
    }
  }

  /** A typed line ends at its first newline. */
  function LineOf(args: string): string {
    if args == "" || args[0] == '\n' then "" else [args[0]] + LineOf(args[1..])
  }

  lemma {:induction false} LineOfPrefix(args: string, len: nat)
    requires len <= |args| && (forall j :: 0 <= j < len ==> args[j] != '\n') && (len == |args| || args[len] == '\n')
    ensures LineOf(args) == args[..len]
  {
    if len != 0 {
      LineOfPrefix(args[1..], len - 1);
      assert args[..len] == [args[0]] + args[1..][..len - 1];
    }
  }
}
