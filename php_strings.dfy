/**
 * The two PHP string builtins the router relies on, specialised to the
 * separator it uses: `trim($s, '/')` and `explode('/', $s)`, with `implode`
 * as the inverse of `explode`.
 */
module PhpStrings {

  const Slash: char := '/'

  /** Every character of `s` is a slash. */
  predicate AllSlash(s: string) {
    forall i :: 0 <= i < |s| ==> s[i] == Slash
  }

  /** `s` holds no slash. */
  predicate NoSlash(s: string) {
    forall i :: 0 <= i < |s| ==> s[i] != Slash
  }

  /** `s` neither starts nor ends with a slash. */
  predicate NoEdgeSlash(s: string) {
    s == [] || (s[0] != Slash && s[|s| - 1] != Slash)
  }

  /** Strips every leading slash. */
  function TrimLeft(s: string): (r: string)
    ensures |r| <= |s|
    ensures r == [] || r[0] != Slash
    decreases |s|
  {
    if s != [] && s[0] == Slash then TrimLeft(s[1..]) else s
  }

  /** Strips every trailing slash. */
  function TrimRight(s: string): (r: string)
    ensures |r| <= |s|
    ensures r == [] || (r[0] == s[0] && r[|r| - 1] != Slash)
    decreases |s|
  {
    if s != [] && s[|s| - 1] == Slash then TrimRight(s[..|s| - 1]) else s
  }

  /** What `TrimLeft` keeps is a suffix, and what it removes is slashes only. */
  lemma {:induction false} TrimLeftSuffix(s: string)
    ensures TrimLeft(s) == s[|s| - |TrimLeft(s)|..]
    ensures AllSlash(s[..|s| - |TrimLeft(s)|])
    decreases |s|
  {
    if s != [] && s[0] == Slash {
      TrimLeftSuffix(s[1..]);
      var k := |s| - |TrimLeft(s)|;
      assert s[..k] == [Slash] + s[1..][..k - 1];
      assert s[k..] == s[1..][k - 1..];
    }
  }

  /** What `TrimRight` keeps is a prefix, and what it removes is slashes only. */
  lemma {:induction false} TrimRightPrefix(s: string)
    ensures TrimRight(s) == s[..|TrimRight(s)|]
    ensures AllSlash(s[|TrimRight(s)|..])
    decreases |s|
  {
    if s != [] && s[|s| - 1] == Slash {
      TrimRightPrefix(s[..|s| - 1]);
      var k := |TrimRight(s)|;
      assert s[k..] == s[..|s| - 1][k..] + [Slash];
      assert s[..k] == s[..|s| - 1][..k];
    }
  }

  /**
   * `trim($s, '/')`: removes the slashes at both ends; what is left has no
   * slash at either end.
   */
  function Trim(s: string): (r: string)
    ensures NoEdgeSlash(r)
    ensures |r| <= |s|
  {
    TrimRight(TrimLeft(s))
  }

  /** What `trim` keeps is a middle piece of `s` framed by slashes only. */
  lemma TrimBounds(s: string) returns (i: nat, j: nat)
    ensures i <= j <= |s|
    ensures Trim(s) == s[i..j] && AllSlash(s[..i]) && AllSlash(s[j..])
  {
    var l := TrimLeft(s);
    var r := TrimRight(l);
    TrimLeftSuffix(s);
    TrimRightPrefix(l);
    i, j := |s| - |l|, |s| - |l| + |r|;
    assert s[i..j] == l[..|r|];
    assert s[j..] == l[|r|..];
  }

  /** `implode('/', $parts)` for the non-empty arrays `explode` produces. */
  function Implode(parts: seq<string>): string
    requires |parts| >= 1
    decreases |parts|
  {
    if |parts| == 1 then parts[0] else parts[0] + [Slash] + Implode(parts[1..])
  }

  /**
   * `explode('/', $s)`: the pieces between slashes, in order. There is
   * always at least one piece (the empty string gives `[""]`), no piece
   * holds a slash, and joining the pieces back gives `s`.
   */
  function Explode(s: string): (r: seq<string>)
    ensures |r| >= 1
    ensures forall i :: 0 <= i < |r| ==> NoSlash(r[i])
    ensures Implode(r) == s
    decreases |s|
  {
    if s == [] then [""]
    else
      var rest := Explode(s[1..]);
      if s[0] == Slash then [""] + rest
      else [[s[0]] + rest[0]] + rest[1..]
  }

  /** Splitting a joined sequence of slash-free pieces gives the pieces back. */
  lemma {:induction false} ExplodeImplode(parts: seq<string>)
    requires |parts| >= 1
    requires forall i :: 0 <= i < |parts| ==> NoSlash(parts[i])
    ensures Explode(Implode(parts)) == parts
    decreases |parts|, |parts[0]|
  {
    var p := parts[0];
    if |parts| == 1 {
      if p != [] {
        ExplodeImplode([p[1..]]);
        assert Implode([p]) == p && Implode([p[1..]]) == p[1..];
        assert [p[0]] + p[1..] == p;
      }
    } else if p == [] {
      ExplodeImplode(parts[1..]);
      assert Implode(parts) == [Slash] + Implode(parts[1..]);
      assert (Implode(parts))[1..] == Implode(parts[1..]);
      assert [""] + parts[1..] == parts;
    } else {
      var parts' := [p[1..]] + parts[1..];
      assert parts'[1..] == parts[1..];
      ExplodeImplode(parts');
      assert Implode(parts) == [p[0]] + Implode(parts');
      assert Implode(parts)[1..] == Implode(parts');
      assert [p[0]] + parts'[0] == p;
      assert [[p[0]] + parts'[0]] + parts'[1..] == parts;
    }
  }

  /** Splitting is the only way to cut `s` into slash-free pieces. */
  lemma ExplodeUnique(s: string, parts: seq<string>)
    requires |parts| >= 1
    requires forall i :: 0 <= i < |parts| ==> NoSlash(parts[i])
    requires Implode(parts) == s
    ensures Explode(s) == parts
  {
    ExplodeImplode(parts);
  }

  lemma {:induction false} ImplodeAppend(a: seq<string>, b: seq<string>)
    requires |a| >= 1 && |b| >= 1
    ensures Implode(a + b) == Implode(a) + [Slash] + Implode(b)
    decreases |a|
  {
    if |a| == 1 {
      assert (a + b)[1..] == b;
    } else {
      assert (a + b)[1..] == a[1..] + b;
      ImplodeAppend(a[1..], b);
    }
  }

  /** Splitting at one slash: the pieces of each side, concatenated. */
  lemma ExplodeAppend(a: string, b: string)
    ensures Explode(a + [Slash] + b) == Explode(a) + Explode(b)
  {
    var ea, eb := Explode(a), Explode(b);
    ImplodeAppend(ea, eb);
    ExplodeUnique(a + [Slash] + b, ea + eb);
  }

  /** A slash-free first segment is the first piece. */
  lemma ExplodeAfterSegment(a: string, x: string)
    requires NoSlash(a)
    ensures Explode(a + [Slash] + x) == [a] + Explode(x)
  {
    ExplodeAppend(a, x);
    ExplodeUnique(a, [a]);
  }

  /** The pieces are the one slash-free piece `a` exactly when the string is `a`. */
  lemma ExplodeSingle(s: string, a: string)
    requires NoSlash(a)
    ensures Explode(s) == [a] <==> s == a
  {
    if s == a {
      ExplodeUnique(s, [a]);
    }
  }

  /** A string that starts with a slash-free segment: that segment, then the pieces of the rest. */
  lemma ExplodeAfterPrefix(s: string, a: string)
    requires NoSlash(a) && HasSegmentPrefix(s, a)
    ensures Explode(s) == [a] + Explode(s[|a| + 1..])
  {
    assert s == a + [Slash] + s[|a| + 1..];
    ExplodeAfterSegment(a, s[|a| + 1..]);
  }

  /** When the slash-free `a` is the first of several pieces, the string starts with `a/`. */
  lemma ExplodeFirstOfSeveral(s: string, a: string)
    requires NoSlash(a)
    requires |Explode(s)| > 1 && Explode(s)[0] == a
    ensures HasSegmentPrefix(s, a)
  {
    var e := Explode(s);
    assert e == [a] + e[1..];
    ImplodeAppend([a], e[1..]);
    assert s == a + [Slash] + Implode(e[1..]);
    assert s[..|a| + 1] == a + [Slash];
  }

  /**
   * How the first piece of `explode` relates to the string, for a slash-free
   * segment `a`: the first piece is `a` exactly when the string is `a` (the
   * only piece) or starts with `a/` (the others are then the pieces of the
   * rest).
   */
  lemma ExplodeHead(s: string, a: string)
    requires NoSlash(a)
    ensures Explode(s)[0] == a <==> s == a || HasSegmentPrefix(s, a)
    ensures s == a ==> Explode(s) == [a]
    ensures HasSegmentPrefix(s, a) ==> Explode(s) == [a] + Explode(s[|a| + 1..])
  {
    var e := Explode(s);
    ExplodeSingle(s, a);
    if HasSegmentPrefix(s, a) {
      ExplodeAfterPrefix(s, a);
    } else if |e| > 1 && e[0] == a {
      ExplodeFirstOfSeveral(s, a);
    }
  }

  /** A slash-free segment joined in front of slash-free pieces splits off again. */
  lemma ExplodeJoined(a: string, parts: seq<string>)
    requires NoSlash(a)
    requires |parts| >= 1 && forall i :: 0 <= i < |parts| ==> NoSlash(parts[i])
    ensures Explode(a + [Slash] + Implode(parts)) == [a] + parts
  {
    ExplodeAfterSegment(a, Implode(parts));
    ExplodeImplode(parts);
  }

  /** Trimming leaves a string without edge slashes as it is. */
  lemma TrimUnframed(t: string)
    requires NoEdgeSlash(t)
    ensures Trim(t) == t
  {
    assert [] + t + [] == t;
    TrimFramed([], t, []);
  }

  /** `s` starts with the segment `a` followed by a slash. */
  predicate HasSegmentPrefix(s: string, a: string) {
    |a| < |s| && s[..|a| + 1] == a + [Slash]
  }

  lemma {:induction false} TrimLeftSkipsSlashes(p: string, u: string)
    requires AllSlash(p)
    ensures TrimLeft(p + u) == TrimLeft(u)
    decreases |p|
  {
    if p != [] {
      assert (p + u)[0] == p[0] == Slash;
      assert (p + u)[1..] == p[1..] + u;
      assert TrimLeft(p + u) == TrimLeft(p[1..] + u);
      TrimLeftSkipsSlashes(p[1..], u);
    } else {
      assert p + u == u;
    }
  }

  lemma {:induction false} TrimRightSkipsSlashes(u: string, q: string)
    requires AllSlash(q)
    ensures TrimRight(u + q) == TrimRight(u)
    decreases |q|
  {
    if q != [] {
      assert (u + q)[|u + q| - 1] == q[|q| - 1] == Slash;
      assert (u + q)[..|u + q| - 1] == u + q[..|q| - 1];
      assert TrimRight(u + q) == TrimRight(u + q[..|q| - 1]);
      TrimRightSkipsSlashes(u, q[..|q| - 1]);
    } else {
      assert u + q == u;
    }
  }

  /**
   * Trimming is determined by the slash-free-edged middle: any string framed
   * by slashes trims to that middle.
   */
  lemma TrimFramed(p: string, t: string, q: string)
    requires AllSlash(p) && AllSlash(q) && NoEdgeSlash(t)
    ensures Trim(p + t + q) == t
  {
    assert p + t + q == p + (t + q);
    TrimLeftSkipsSlashes(p, t + q);
    if t == [] {
      assert t + q == q + [];
      TrimLeftSkipsSlashes(q, []);
      assert TrimLeft(p + t + q) == [];
      assert Trim(p + t + q) == TrimRight([]);
    } else {
      TrimRightSkipsSlashes(t, q);
    }
  }

  /** Extra slashes at either end never change what `trim` keeps. */
  lemma TrimIgnoresEdgeSlashes(p: string, s: string, q: string)
    requires AllSlash(p) && AllSlash(q)
    ensures Trim(p + s + q) == Trim(s)
  {
    var t := Trim(s);
    var i, j := TrimBounds(s);
    assert s == s[..i] + t + s[j..];
    assert p + s + q == (p + s[..i]) + t + (s[j..] + q);
    TrimFramed(p + s[..i], t, s[j..] + q);
  }
}
