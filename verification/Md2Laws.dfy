/** The definition of the digest, byte by byte: recurrences that hold for every substitution, and the closed
    form for a constant one. */
module Md2Laws {
  import opened Rfc1319
  import opened Md2

  // ---- the rounds -----------------------------------------------------------------------------

  /** A byte plus the number of a round. */
  function Numbered(x: bv8, j: nat): bv8
    requires j < 18
  {
    x + (j as bv8)
  }

  /** Both are exclusive or with a substituted byte. */
  lemma OneByte(s: Perm, x: bv8, b: bv8, last: bv8)
    ensures Turned(s, x, last) ^ x == s(last)
    ensures Fed(s, x, 0, last) == Turned(s, x, last)
    ensures Fed(s, x, b, last) == Fed(s, x, last, b)
    ensures Fed(s, x, b, last) ^ x == s(b ^ last)
  {
    ZeroFirst(last);
    assert b ^ last == last ^ b;
  }

  lemma ZeroFirst(b: bv8)
    ensures 0 ^ b == b
  {
  }

  lemma {:induction false} SweepBytes(s: Perm, x: seq<bv8>, t: bv8, n: nat, k: nat)
    requires n <= |x| && k < |x|
    ensures var r := Sweep(s, x, t, n);
            && (k >= n ==> r.x[k] == x[k])
            && (k < n ==> r.x[k] == Turned(s, x[k], if k == 0 then t else r.x[k - 1]))
            && r.t == if n == 0 then t else r.x[n - 1]
    decreases n
  {
    hide Turned;
    if n == 0 {
    } else {
      SweepBytes(s, x, t, n - 1, k);
      SweepBytes(s, x, t, n - 1, n - 1);
    }
  }

  lemma CarriedOver(s: Perm, x: seq<bv8>, j: nat)
    requires j <= 18 && x != []
    ensures Rounds(s, x, j).t == if j == 0 then 0 else Numbered(Rounds(s, x, j).x[|x| - 1], j - 1)
  {
    hide Sweep;
    if j > 0 {
      var p := Rounds(s, x, j - 1);
      SweepBytes(s, p.x, p.t, |x|, |x| - 1);
      NextIsNumbered(Sweep(s, p.x, p.t, |x|).t, j - 1);
    }
  }

  lemma NextIsNumbered(t: bv8, j: nat)
    requires j < 18
    ensures NextT(t, j) == Numbered(t, j)
  {
  }

  /** Every round sets each byte from the one just set before it; the first byte follows the last byte of the
      round before plus that round's number, from 0 up, and a zero at the very start. */
  lemma RoundBytes(s: Perm, x: seq<bv8>, j: nat, k: nat)
    requires j < 18 && k < |x|
    ensures var y, z := Rounds(s, x, j).x, Rounds(s, x, j + 1).x;
            z[k] == Turned(s, y[k], if k > 0 then z[k - 1] else if j == 0 then 0 else Numbered(y[|x| - 1], j - 1))
  {
    hide Sweep, Turned, Numbered, NextT;
    var p := Rounds(s, x, j);
    SweepBytes(s, p.x, p.t, |x|, k);
    CarriedOver(s, x, j);
  }

  /** A block starts its eighteen rounds from the sixteen bytes the blocks before have left, the block's own
      bytes, and the exclusive or of the two. */
  lemma WorkArea(s: Perm, m: seq<bv8>, n: nat, x: seq<bv8>)
    requires n * 16 + 16 <= |m| && |x| == 48
    requires forall k :: 0 <= k < 16 ==> x[k] == if n == 0 then 0 else Work(s, m, n)[k]
    requires forall k :: 16 <= k < 32 ==> x[k] == m[n * 16 + k - 16]
    requires forall k :: 32 <= k < 48 ==> x[k] == x[k - 32] ^ x[k - 16]
    ensures Work(s, m, n + 1) == Rounds(s, x, 18).x
  {
    hide Rounds;
    var p, block := Work(s, m, n)[..16], m[n * 16..n * 16 + 16];
    AreaParts(x, p, block);
  }

  lemma AreaParts(x: seq<bv8>, p: seq<bv8>, block: seq<bv8>)
    requires |x| == 48 && |p| == |block| == 16
    requires forall k :: 0 <= k < 16 ==> x[k] == p[k]
    requires forall k :: 16 <= k < 32 ==> x[k] == block[k - 16]
    requires forall k :: 32 <= k < 48 ==> x[k] == x[k - 32] ^ x[k - 16]
    ensures x == p + block + Xor(p, block)
  {
    var z := Xor(p, block);
    forall k | 0 <= k < 48 ensures x[k] == (p + block + z)[k] {
      if k >= 32 {
        assert x[k - 32] == p[k - 32] && x[k - 16] == block[k - 32];
        assert (p + block + z)[k] == z[k - 32];
      }
    }
  }

  // ---- the checksum ---------------------------------------------------------------------------

  lemma {:induction false} SumBytes(s: Perm, c: seq<bv8>, block: seq<bv8>, j: nat, k: nat)
    requires |c| == |block| == 16 && j <= 16 && k < 16
    ensures var r := SumBlock(s, c, block, j);
            && (k >= j ==> r.c[k] == c[k])
            && (k < j ==> r.c[k] == Fed(s, c[k], block[k], if k == 0 then c[15] else r.c[k - 1]))
            && r.l == if j == 0 then c[15] else r.c[j - 1]
    decreases j
  {
    hide Fed;
    if j == 0 {
    } else {
      SumBytes(s, c, block, j - 1, k);
      SumBytes(s, c, block, j - 1, j - 1);
    }
  }

  lemma {:induction false} LastIsCarried(s: Perm, m: seq<bv8>, i: nat)
    requires i * 16 <= |m|
    ensures Checksum(s, m, i, 0).l == Checksum(s, m, i, 0).c[15]
  {
    if i == 0 {
    } else {
      assert Checksum(s, m, i, 0) == Checksum(s, m, i - 1, 16);
    }
  }

  /** Every block sets each checksum byte from the message byte and the checksum byte just set before it; the
      first follows the last of the block before, and a zero at the very start. */
  lemma ChecksumBytes(s: Perm, m: seq<bv8>, i: nat, k: nat)
    requires i * 16 + 16 <= |m| && k < 16
    ensures var b, c := Checksum(s, m, i, 0).c, Checksum(s, m, i + 1, 0).c;
            c[k] == Fed(s, b[k], m[i * 16 + k], if k > 0 then c[k - 1] else if i == 0 then 0 else b[15])
  {
    hide SumBlock, Fed;
    var before, block := Checksum(s, m, i, 0), m[i * 16..i * 16 + 16];
    assert Checksum(s, m, i + 1, 0) == Checksum(s, m, i, 16);
    LastIsCarried(s, m, i);
    SumBlockIsChecksum(s, m, i, before, block, 16);
    SumBytes(s, before.c, block, 16, k);
    assert block[k] == m[i * 16 + k];
    assert i == 0 ==> before.c[15] == 0;
  }

  /** The message itself, then one to sixteen bytes whose value is their number. */
  lemma PaddedBytes(m: seq<bv8>, k: nat)
    requires k < |Padded(m)|
    ensures Padded(m)[..|m|] == m && 1 <= |Padded(m)| - |m| <= 16
    ensures k >= |m| ==> Padded(m)[k] == (|Padded(m)| - |m|) as bv8
  {
  }

  /** The digest is of the message padded to whole blocks and one block more, the checksum of all before. */
  lemma DigestParts(s: Perm, m: seq<bv8>)
    ensures var all, n := Completed(s, m), |Padded(m)| / 16;
            && |all| == n * 16 + 16 && all[..n * 16] == Padded(m)
            && (forall k :: 0 <= k < 16 ==> all[n * 16 + k] == Checksum(s, all, n, 0).c[k])
            && (forall k :: 0 <= k < 16 ==> Digest(s, m)[k] == Work(s, all, n + 1)[k])
  {
    hide Work, Checksum;
    var p := Padded(m);
    ChecksumPrefix(s, p, Checksum(s, p, |p| / 16, 0).c, |p| / 16, 0);
  }

  /** What the default substitution makes of no bit, of each single bit and of all bits. */
  lemma StandInValues()
    ensures StandInPerm(0) == 4 && StandInPerm(1) == 199 && StandInPerm(2) == 138 && StandInPerm(4) == 251
    ensures StandInPerm(8) == 242 && StandInPerm(16) == 40 && StandInPerm(32) == 140
    ensures StandInPerm(64) == 52 && StandInPerm(128) == 164 && StandInPerm(255) == 246
  {
  }

  // ---- a constant substitution ----------------------------------------------------------------

  /** k in odd rounds, nothing in even ones. */
  function InOdd(k: bv8, j: nat): bv8 {
    if j % 2 == 1 then k else 0
  }

  function Mask(a: bv8, b: bv8): bv8 { a ^ b }

  lemma MaskTwice(a: bv8, k: bv8)
    ensures Mask(Mask(a, k), k) == a && Mask(a, 0) == a
  {
    assert Mask(a ^ k, k) == a;
  }

  lemma ConstantTurn(s: Perm, c: bv8, x: bv8, last: bv8)
    requires forall i :: s(i) == c
    ensures Turned(s, x, last) == Mask(x, c)
  {
  }

  lemma ConstantFeed(s: Perm, c: bv8, x: bv8, b: bv8, last: bv8)
    requires forall i :: s(i) == c
    ensures Fed(s, x, b, last) == Mask(x, c)
  {
  }

  lemma ConstantRound(s: Perm, c: bv8, x: seq<bv8>, j: nat, k: nat)
    requires j < 18 && k < |x| && forall i :: s(i) == c
    ensures Rounds(s, x, j + 1).x[k] == Mask(Rounds(s, x, j).x[k], c)
  {
    hide Rounds, Mask, Turned, Numbered;
    RoundBytes(s, x, j, k);
    var y, z := Rounds(s, x, j).x, Rounds(s, x, j + 1).x;
    ConstantTurn(s, c, y[k], if k > 0 then z[k - 1] else if j == 0 then 0 else Numbered(y[|x| - 1], j - 1));
  }

  /** A constant substitution masks every byte in odd rounds and unmasks it in even ones. */
  lemma {:induction false} ConstantRounds(s: Perm, c: bv8, x: seq<bv8>, j: nat, k: nat)
    requires j <= 18 && k < |x| && forall i :: s(i) == c
    ensures Rounds(s, x, j).x[k] == Mask(x[k], InOdd(c, j))
    decreases j
  {
    hide Mask;
    MaskTwice(x[k], c);
    if j == 0 {
    } else {
      hide Rounds;
      ConstantRounds(s, c, x, j - 1, k);
      ConstantRound(s, c, x, j - 1, k);
    }
  }

  /** The last byte of a round, and that round's number, are what the next one starts from. */
  lemma ConstantCarry(s: Perm, c: bv8, x: seq<bv8>, j: nat)
    requires 1 <= j <= 18 && x != [] && forall i :: s(i) == c
    ensures Rounds(s, x, j).t == Numbered(Mask(x[|x| - 1], InOdd(c, j)), j - 1)
  {
    hide Rounds, Mask, Numbered;
    CarriedOver(s, x, j);
    ConstantRounds(s, c, x, j, |x| - 1);
  }

  lemma ZeroMasked(c: bv8)
    ensures Mask(0, c) == c && Mask(c, c) == 0
  {
  }

  lemma {:induction false} ConstantWork(s: Perm, c: bv8, m: seq<bv8>, n: nat)
    requires n * 16 <= |m| && forall i :: s(i) == c
    ensures Work(s, m, n)[..16] == Zeros(16)
  {
    if n == 0 {
    } else {
      ConstantWork(s, c, m, n - 1);
      var p, block := Work(s, m, n - 1)[..16], m[(n - 1) * 16..n * 16];
      var area := p + block + Xor(p, block);
      forall k | 0 <= k < 16 ensures Work(s, m, n)[k] == 0 {
        ConstantRounds(s, c, area, 18, k);
        MaskTwice(area[k], c);
      }
    }
  }

  /** Whatever the message, a constant substitution gives the zero digest: the rounds are even in number. */
  lemma ConstantDigest(s: Perm, c: bv8, m: seq<bv8>)
    requires forall i :: s(i) == c
    ensures Digest(s, m) == Zeros(16)
  {
    ConstantWork(s, c, Completed(s, m), |Completed(s, m)| / 16);
  }

  lemma ConstantBlock(s: Perm, c: bv8, m: seq<bv8>, i: nat, k: nat)
    requires i * 16 + 16 <= |m| && k < 16 && forall i :: s(i) == c
    ensures Checksum(s, m, i + 1, 0).c[k] == Mask(Checksum(s, m, i, 0).c[k], c)
  {
    hide Checksum, Mask, Fed;
    ChecksumBytes(s, m, i, k);
    var a, z := Checksum(s, m, i, 0).c, Checksum(s, m, i + 1, 0).c;
    ConstantFeed(s, c, a[k], m[i * 16 + k], if k > 0 then z[k - 1] else if i == 0 then 0 else a[15]);
  }

  lemma FirstChecksum(s: Perm, m: seq<bv8>)
    ensures Checksum(s, m, 0, 0) == Check(Zeros(16), 0)
  {
  }

  /** Its checksum is the constant in every byte after an odd number of blocks, and zero after an even one. */
  lemma {:induction false} ConstantChecksum(s: Perm, c: bv8, m: seq<bv8>, n: nat, k: nat)
    requires n * 16 <= |m| && k < 16 && forall i :: s(i) == c
    ensures Checksum(s, m, n, 0).c[k] == InOdd(c, n)
  {
    hide Mask, Checksum;
    if n == 0 {
      FirstChecksum(s, m);
    } else {
      ConstantChecksum(s, c, m, n - 1, k);
      ConstantBlock(s, c, m, n - 1, k);
      ZeroMasked(c);
    }
  }
}
