/** Longest common subsequences, the measure against which the line diff is proved minimal. */
module Lcs {

  /** `c` can be obtained from `a` by leaving out elements. */
  ghost predicate IsSubseq(c: seq<string>, a: seq<string>) {
    c == [] ||
    (a != [] && ((c[0] == a[0] && IsSubseq(c[1..], a[1..])) || IsSubseq(c, a[1..])))
  }

  function LcsLength(a: seq<string>, b: seq<string>): nat
    decreases |a| + |b|
  {
    if a == [] || b == [] then 0
    else if a[0] == b[0] then LcsLength(a[1..], b[1..]) + 1
    else
      var x, y := LcsLength(a[1..], b), LcsLength(a, b[1..]);
      if x >= y then x else y
  }

  lemma {:induction false} LengthBounds(a: seq<string>, b: seq<string>)
    ensures LcsLength(a, b) <= |a| && LcsLength(a, b) <= |b|
    decreases |a| + |b|
  {
    if a != [] && b != [] {
      if a[0] == b[0] {
        LengthBounds(a[1..], b[1..]);
      } else {
        LengthBounds(a[1..], b);
        LengthBounds(a, b[1..]);
      }
    }
  }

  lemma {:induction false} SubseqTail(c: seq<string>, a: seq<string>)
    requires IsSubseq(c, a) && c != []
    ensures IsSubseq(c[1..], a[1..])
    decreases |a|
  {
    if IsSubseq(c, a[1..]) {
      SubseqTail(c, a[1..]);
    }
  }

  /** No common subsequence is longer than `LcsLength`. */
  lemma {:induction false} CommonSubseqBound(c: seq<string>, a: seq<string>, b: seq<string>)
    requires IsSubseq(c, a) && IsSubseq(c, b)
    ensures |c| <= LcsLength(a, b)
    decreases |a| + |b|
  {
    if c != [] {
      if a[0] == b[0] {
        if c[0] == a[0] {
          SubseqTail(c, a);
          SubseqTail(c, b);
          CommonSubseqBound(c[1..], a[1..], b[1..]);
        } else {
          CommonSubseqBound(c, a[1..], b[1..]);
        }
      } else if c[0] != a[0] {
        CommonSubseqBound(c, a[1..], b);
      } else {
        CommonSubseqBound(c, a, b[1..]);
      }
    }
  }

  /** One element less makes the length smaller by one at most. */
  lemma {:induction false} OneLess(a: seq<string>, b: seq<string>)
    ensures a != [] ==> LcsLength(a[1..], b) <= LcsLength(a, b) <= LcsLength(a[1..], b) + 1
    ensures b != [] ==> LcsLength(a, b[1..]) <= LcsLength(a, b) <= LcsLength(a, b[1..]) + 1
    decreases |a| + |b|
  {
    if a != [] && b != [] {
      OneLess(a[1..], b);
      OneLess(a, b[1..]);
    }
  }

  /** A common prefix adds its length. */
  lemma {:induction false} PrefixAdds(p: seq<string>, a: seq<string>, b: seq<string>)
    ensures LcsLength(p + a, p + b) == |p| + LcsLength(a, b)
  {
    if p == [] {
      assert p + a == a && p + b == b;
    } else {
      assert (p + a)[1..] == p[1..] + a && (p + b)[1..] == p[1..] + b;
      PrefixAdds(p[1..], a, b);
    }
  }

  lemma {:induction false} LastAdds(x: string, a: seq<string>, b: seq<string>)
    ensures LcsLength(a + [x], b + [x]) == LcsLength(a, b) + 1
    decreases |a| + |b|
  {
    var ax, bx := a + [x], b + [x];
    if a == [] && b == [] {
      assert ax[1..] == [] && bx[1..] == [];
    } else if a == [] {
      assert ax == [x];
      OnlyOne(x, bx);
    } else if b == [] {
      assert bx == [x];
      OnlyOne(x, ax);
      Symmetric(ax, bx);
    } else {
      assert ax[1..] == a[1..] + [x] && bx[1..] == b[1..] + [x];
      if a[0] == b[0] {
        LastAdds(x, a[1..], b[1..]);
      } else {
        LastAdds(x, a[1..], b);
        LastAdds(x, a, b[1..]);
      }
    }
  }

  lemma {:induction false} OnlyOne(x: string, b: seq<string>)
    requires x in b
    ensures LcsLength([x], b) == 1
  {
    assert [x][1..] == [];
    if b[0] != x {
      OnlyOne(x, b[1..]);
    }
  }

  lemma {:induction false} Symmetric(a: seq<string>, b: seq<string>)
    ensures LcsLength(a, b) == LcsLength(b, a)
    decreases |a| + |b|
  {
    if a != [] && b != [] {
      if a[0] == b[0] {
        Symmetric(a[1..], b[1..]);
      } else {
        Symmetric(a[1..], b);
        Symmetric(a, b[1..]);
      }
    }
  }

  /** A common suffix adds its length. */
  lemma {:induction false} SuffixAdds(a: seq<string>, b: seq<string>, s: seq<string>)
    ensures LcsLength(a + s, b + s) == LcsLength(a, b) + |s|
    decreases |s|
  {
    if s == [] {
      assert a + s == a && b + s == b;
    } else {
      var n := |s| - 1;
      SuffixAdds(a, b, s[..n]);
      assert a + s == (a + s[..n]) + [s[n]] && b + s == (b + s[..n]) + [s[n]];
      LastAdds(s[n], a + s[..n], b + s[..n]);
    }
  }

  /** Trimming a common prefix and a common suffix leaves the problem of the middles. */
  lemma TrimPreservesLcs(p: seq<string>, a: seq<string>, b: seq<string>, s: seq<string>)
    ensures LcsLength(p + a + s, p + b + s) == |p| + LcsLength(a, b) + |s|
  {
    assert p + a + s == p + (a + s) && p + b + s == p + (b + s);
    PrefixAdds(p, a + s, b + s);
    SuffixAdds(a, b, s);
  }
}
