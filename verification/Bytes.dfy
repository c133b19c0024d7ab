/** Byte strings and the integers written in them. */
module Bytes {
  type byte = b: int | 0 <= b < 256

  /** `acc` followed by the bytes s[lo..hi], most significant first. */
  function Fold(acc: nat, s: seq<byte>, lo: nat, hi: nat): nat
    requires lo <= hi <= |s|
    decreases hi
  {
    if lo == hi then acc else Fold(acc, s, lo, hi - 1) * 256 + s[hi - 1]
  }

  /** Big-endian value of s[lo..hi]. */
  function Big(s: seq<byte>, lo: nat, hi: nat): nat
    requires lo <= hi <= |s|
  {
    Fold(0, s, lo, hi)
  }

  /** Little-endian value of s[lo..hi]. */
  function Little(s: seq<byte>, lo: nat, hi: nat): nat
    requires lo <= hi <= |s|
    decreases hi - lo
  {
    if lo == hi then 0 else s[lo] + 256 * Little(s, lo + 1, hi)
  }

  /** The bytes of `t` stand at `pos` in `s`. */
  predicate Sits(s: seq<byte>, pos: nat, t: seq<byte>) {
    pos + |t| <= |s| && forall i :: 0 <= i < |t| ==> s[pos + i] == t[i]
  }

  lemma SitsIsSlice(s: seq<byte>, pos: nat, t: seq<byte>)
    ensures Sits(s, pos, t) <==> pos + |t| <= |s| && s[pos..pos + |t|] == t
  {
    if pos + |t| <= |s| && s[pos..pos + |t|] == t {
      forall i | 0 <= i < |t| ensures s[pos + i] == t[i] { assert s[pos + i] == s[pos..pos + |t|][i]; }
    }
  }

  lemma {:induction false} FoldSits(acc: nat, s: seq<byte>, pos: nat, t: seq<byte>, lo: nat, hi: nat)
    requires Sits(s, pos, t) && lo <= hi <= |t|
    ensures Fold(acc, s, pos + lo, pos + hi) == Fold(acc, t, lo, hi)
    decreases hi
  {
    if lo < hi {
      FoldSits(acc, s, pos, t, lo, hi - 1);
      assert s[pos + (hi - 1)] == t[hi - 1];
    }
  }

  lemma SitsApart(s: seq<byte>, pos: nat, t: seq<byte>, u: seq<byte>)
    ensures Sits(s, pos, t + u) <==> Sits(s, pos, t) && Sits(s, pos + |t|, u)
  {
    if Sits(s, pos, t + u) {
      forall i | 0 <= i < |t| ensures s[pos + i] == t[i] { assert (t + u)[i] == t[i]; }
      forall i | 0 <= i < |u| ensures s[pos + |t| + i] == u[i] { assert s[pos + (|t| + i)] == (t + u)[|t| + i]; }
    }
    if Sits(s, pos, t) && Sits(s, pos + |t|, u) {
      forall i | 0 <= i < |t + u| ensures s[pos + i] == (t + u)[i] {
        if i >= |t| { assert s[pos + |t| + (i - |t|)] == u[i - |t|]; }
      }
    }
  }

  function Pow256(n: nat): (p: nat)
    ensures p >= 1
  {
    if n == 0 then 1 else 256 * Pow256(n - 1)
  }

  lemma {:induction false} FoldBelow(acc: nat, bound: nat, s: seq<byte>, lo: nat, hi: nat)
    requires acc < bound && lo <= hi <= |s|
    ensures Fold(acc, s, lo, hi) < bound * Pow256(hi - lo)
    decreases hi
  {
    if lo < hi {
      FoldBelow(acc, bound, s, lo, hi - 1);
      assert bound * Pow256(hi - lo) == 256 * (bound * Pow256(hi - lo - 1));
    }
  }

  lemma {:induction false} LittleBelow(s: seq<byte>, lo: nat, hi: nat)
    requires lo <= hi <= |s|
    ensures Little(s, lo, hi) < Pow256(hi - lo)
    decreases hi - lo
  {
    if lo < hi { LittleBelow(s, lo + 1, hi); }
  }

  lemma MulBelow(x: nat, y: nat, m: nat)
    requires x < m && y < m
    ensures x * y < m * m
  {
    assert x * y <= x * m;
    assert x * m < m * m;
  }

  /** Values of two, three and four bytes. */
  lemma SmallBelow(s: seq<byte>, lo: nat, hi: nat)
    requires lo <= hi <= |s| && hi - lo <= 4
    ensures Big(s, lo, hi) < 0x1_0000_0000 && Little(s, lo, hi) < 0x1_0000_0000
    ensures hi - lo <= 3 ==> Little(s, lo, hi) < 0x100_0000
  {
    FoldBelow(0, 1, s, lo, hi);
    LittleBelow(s, lo, hi);
    assert Pow256(0) == 1 && Pow256(1) == 0x100 && Pow256(2) == 0x1_0000;
    assert Pow256(3) == 0x100_0000 && Pow256(4) == 0x1_0000_0000;
  }

  lemma FoldPrefix(acc: nat, s: seq<byte>, more: seq<byte>, lo: nat, hi: nat)
    requires lo <= hi <= |s|
    ensures Fold(acc, s + more, lo, hi) == Fold(acc, s, lo, hi)
  {
    FoldSits(acc, s + more, 0, s, lo, hi);
  }

  lemma {:induction false} LittlePrefix(s: seq<byte>, more: seq<byte>, lo: nat, hi: nat)
    requires lo <= hi <= |s|
    ensures Little(s + more, lo, hi) == Little(s, lo, hi)
    decreases hi - lo
  {
    if lo < hi { LittlePrefix(s, more, lo + 1, hi); }
  }

  /** `v` in `n` bytes, most significant first. */
  function WriteBig(v: nat, n: nat): (s: seq<byte>)
    ensures |s| == n
  {
    if n == 0 then [] else WriteBig(v / 256, n - 1) + [v % 256]
  }

  lemma {:induction false} WriteBigReads(v: nat, n: nat)
    requires v < Pow256(n)
    ensures Big(WriteBig(v, n), 0, n) == v
  {
    if n > 0 {
      WriteBigReads(v / 256, n - 1);
      FoldSits(0, WriteBig(v, n), 0, WriteBig(v / 256, n - 1), 0, n - 1);
    }
  }

  /** A big-endian integer read where it was written. */
  lemma BigSits(s: seq<byte>, pos: nat, v: nat, n: nat)
    requires v < Pow256(n) && Sits(s, pos, WriteBig(v, n))
    ensures Big(s, pos, pos + n) == v
  {
    WriteBigReads(v, n);
    FoldSits(0, s, pos, WriteBig(v, n), 0, n);
  }

  /** What stands somewhere is what is written for its value. */
  lemma {:induction false} BigWrites(s: seq<byte>, pos: nat, n: nat)
    requires pos + n <= |s|
    ensures Sits(s, pos, WriteBig(Big(s, pos, pos + n), n))
  {
    if n > 0 {
      BigWrites(s, pos, n - 1);
      var v, last := Big(s, pos, pos + n - 1), s[pos + n - 1];
      assert Big(s, pos, pos + n) == v * 256 + last;
      assert (v * 256 + last) / 256 == v && (v * 256 + last) % 256 == last;
      assert Sits(s, pos + (n - 1), [last]);
      SitsApart(s, pos, WriteBig(v, n - 1), [last]);
    }
  }

  /** `v` in `n` bytes, least significant first. */
  function WriteLittle(v: nat, n: nat): (s: seq<byte>)
    ensures |s| == n
    decreases n
  {
    if n == 0 then [] else [v % 256] + WriteLittle(v / 256, n - 1)
  }

  /** A little-endian integer read where it was written. */
  lemma {:induction false} LittleSits(s: seq<byte>, pos: nat, v: nat, n: nat)
    requires v < Pow256(n) && Sits(s, pos, WriteLittle(v, n))
    ensures Little(s, pos, pos + n) == v
    decreases n
  {
    if n > 0 {
      SitsApart(s, pos, [v % 256], WriteLittle(v / 256, n - 1));
      assert s[pos + 0] == [v % 256][0];
      LittleSits(s, pos + 1, v / 256, n - 1);
    }
  }

  lemma {:induction false} LittleWrites(s: seq<byte>, pos: nat, n: nat)
    requires pos + n <= |s|
    ensures Sits(s, pos, WriteLittle(Little(s, pos, pos + n), n))
    decreases n
  {
    if n > 0 {
      LittleWrites(s, pos + 1, n - 1);
      var first, rest := s[pos], Little(s, pos + 1, pos + n);
      assert Little(s, pos, pos + n) == first + 256 * rest;
      assert (first + 256 * rest) % 256 == first && (first + 256 * rest) / 256 == rest;
      assert Sits(s, pos, [first]);
      SitsApart(s, pos, [first], WriteLittle(rest, n - 1));
    }
  }

  /** The value of four bytes. */
  function Code(p: byte, q: byte, r: byte, s: byte): nat {
    0x100_0000 * (p as nat) + 0x1_0000 * (q as nat) + 0x100 * (r as nat) + s as nat
  }

  lemma CodeIs(s: seq<byte>, pos: nat)
    requires pos + 4 <= |s|
    ensures Big(s, pos, pos + 4) == Code(s[pos], s[pos + 1], s[pos + 2], s[pos + 3])
  {
    assert Fold(0, s, pos, pos + 1) == s[pos];
    assert Fold(0, s, pos, pos + 2) == 0x100 * (s[pos] as nat) + s[pos + 1] as nat;
    assert Fold(0, s, pos, pos + 3) == 0x1_0000 * (s[pos] as nat) + 0x100 * (s[pos + 1] as nat) + s[pos + 2] as nat;
  }

  /** A four-character code stands somewhere exactly when its value is read there. */
  lemma CodeSits(s: seq<byte>, pos: nat, p: byte, q: byte, r: byte, t: byte)
    ensures pos + 4 <= |s| ==> (Sits(s, pos, [p, q, r, t]) <==> Big(s, pos, pos + 4) == Code(p, q, r, t))
  {
    if pos + 4 <= |s| {
      CodeIs(s, pos);
      var code := [p, q, r, t];
      if Sits(s, pos, code) {
        assert s[pos + 0] == code[0] && s[pos + 1] == code[1] && s[pos + 2] == code[2] && s[pos + 3] == code[3];
      }
    }
  }
}
