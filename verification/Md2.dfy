/** The message digest as RFC 1319 sections 3.1 to 3.4 define it: several passes over a whole message.
    The substitution is a parameter; the checksum step is the XOR form of the reference implementation. */
module Rfc1319 {

  type Perm = bv8 -> bv8

  function Zeros(n: nat): (z: seq<bv8>)
    ensures |z| == n && forall k :: 0 <= k < n ==> z[k] == 0
  {
    seq(n, _ => 0)
  }

  function PadBytes(n: nat): (p: seq<bv8>)
    requires n <= 16
    ensures |p| == n && forall k :: 0 <= k < n ==> p[k] == n as bv8
  {
    seq(n, _ => n as bv8)
  }

  /** Section 3.1: append i bytes of value i, 1 <= i <= 16. */
  function Padded(m: seq<bv8>): (p: seq<bv8>)
    ensures |p| % 16 == 0 && |m| < |p| <= |m| + 16
  {
    m + PadBytes(16 - |m| % 16)
  }

  datatype Check = Check(c: seq<bv8>, l: bv8)

  /** A checksum byte from the one there, a message byte and the checksum byte before. */
  function Fed(s: Perm, c: bv8, b: bv8, last: bv8): bv8 { c ^ s(b ^ last) }

  /** A byte of the work area from the one there and the byte set before. */
  function Turned(s: Perm, x: bv8, last: bv8): bv8 { x ^ s(last) }

  /** Section 3.2, one byte: C[j] is set to C[j] xor S[b xor L], which becomes L. */
  function SumStep(s: Perm, p: Check, j: nat, b: bv8): (r: Check)
    requires |p.c| == 16 && j < 16
    ensures |r.c| == 16 && r.c[j] == r.l
    ensures forall k :: 0 <= k < 16 && k != j ==> r.c[k] == p.c[k]
  {
    var v := Fed(s, p.c[j], b, p.l);
    Check(p.c[j := v], v)
  }

  /** Section 3.2: the checksum block and the last value L after i blocks of m and j bytes of the next. */
  function Checksum(s: Perm, m: seq<bv8>, i: nat, j: nat): (r: Check)
    requires i * 16 + j <= |m| && j <= 16
    ensures |r.c| == 16
    decreases i, j
  {
    if j > 0 then SumStep(s, Checksum(s, m, i, j - 1), j - 1, m[i * 16 + j - 1])
    else if i > 0 then Checksum(s, m, i - 1, 16)
    else Check(Zeros(16), 0)
  }

  datatype Mix = Mix(x: seq<bv8>, t: bv8)

  function SweepStep(s: Perm, p: Mix, k: nat): (r: Mix)
    requires k < |p.x|
    ensures |r.x| == |p.x|
  {
    var v := Turned(s, p.x[k], p.t);
    Mix(p.x[k := v], v)
  }

  /** The inner loop of section 3.4 up to byte k. */
  function Sweep(s: Perm, x: seq<bv8>, t: bv8, k: nat): (r: Mix)
    requires k <= |x|
    ensures |r.x| == |x|
  {
    if k == 0 then Mix(x, t)
    else SweepStep(s, Sweep(s, x, t, k - 1), k - 1)
  }

  /** t + j modulo 256. */
  function NextT(t: bv8, j: nat): bv8
    requires j < 18
  {
    t + (j as bv8)
  }

  /** The outer loop of section 3.4 up to round j. */
  function Rounds(s: Perm, x: seq<bv8>, j: nat): (r: Mix)
    requires j <= 18
    ensures |r.x| == |x|
  {
    if j == 0 then Mix(x, 0)
    else
      var p := Rounds(s, x, j - 1);
      var q := Sweep(s, p.x, p.t, |x|);
      Mix(q.x, NextT(q.t, j - 1))
  }

  function Xor(a: seq<bv8>, b: seq<bv8>): (r: seq<bv8>)
    requires |a| == |b|
    ensures |r| == |a| && forall k :: 0 <= k < |a| ==> r[k] == a[k] ^ b[k]
  {
    seq(|a|, k requires 0 <= k < |a| => a[k] ^ b[k])
  }

  /** Sections 3.3 and 3.4: the 48-byte work area after the first n blocks of m. */
  function Work(s: Perm, m: seq<bv8>, n: nat): (x: seq<bv8>)
    requires n * 16 <= |m|
    ensures |x| == 48
  {
    if n == 0 then Zeros(48)
    else
      var p := Work(s, m, n - 1)[..16];
      var block := m[(n - 1) * 16..n * 16];
      Rounds(s, p + block + Xor(p, block), 18).x
  }

  /** The message followed by its padding and by the checksum of both. */
  function Completed(s: Perm, m: seq<bv8>): (all: seq<bv8>)
    ensures |all| % 16 == 0
  {
    var p := Padded(m);
    p + Checksum(s, p, |p| / 16, 0).c
  }

  function Digest(s: Perm, m: seq<bv8>): (d: seq<bv8>)
    ensures |d| == 16
  {
    var all := Completed(s, m);
    Work(s, all, |all| / 16)[..16]
  }

  lemma {:induction false} ChecksumPrefix(s: Perm, a: seq<bv8>, b: seq<bv8>, i: nat, j: nat)
    requires i * 16 + j <= |a| && j <= 16
    ensures Checksum(s, a + b, i, j) == Checksum(s, a, i, j)
    decreases i, j
  {
    if j > 0 {
      ChecksumPrefix(s, a, b, i, j - 1);
      assert (a + b)[i * 16 + j - 1] == a[i * 16 + j - 1];
    } else if i > 0 {
      ChecksumPrefix(s, a, b, i - 1, 16);
    }
  }

  lemma {:induction false} WorkPrefix(s: Perm, a: seq<bv8>, b: seq<bv8>, n: nat)
    requires n * 16 <= |a|
    ensures Work(s, a + b, n) == Work(s, a, n)
  {
    if n == 0 {
    } else {
      WorkPrefix(s, a, b, n - 1);
      assert (a + b)[(n - 1) * 16..n * 16] == a[(n - 1) * 16..n * 16];
    }
  }
}

/** The one-pass form: a context that absorbs bytes, keeping state and checksum together. */
module Md2 {
  import opened Rfc1319

  /** The substitution of the default build. */
  function StandInPerm(i: bv8): bv8 {
    var a := i * 5;
    var b := (a >> 2) | (a << 6);
    var c := b ^ 172;
    c * 3
  }

  function StandInInverse(i: bv8): bv8 {
    var c := i * 171;
    var b := c ^ 172;
    var a := (b << 2) | (b >> 6);
    a * 205
  }

  /** It is a permutation of the 256 byte values. */
  lemma StandInIsPermutation(i: bv8)
    ensures StandInInverse(StandInPerm(i)) == i
    ensures StandInPerm(StandInInverse(i)) == i
  {
  }

  datatype Context = Context(buffer: seq<bv8>, state: seq<bv8>, checksum: seq<bv8>, counter: nat)
  {
    predicate Shaped() {
      |buffer| == |state| == |checksum| == 16 && counter < 16
    }
  }

  function EncryptBlock(s: Perm, state: seq<bv8>, block: seq<bv8>): (r: seq<bv8>)
    requires |state| == |block| == 16
    ensures |r| == 16
  {
    Rounds(s, state + block + Xor(state, block), 18).x[..16]
  }

  /** The checksum pass over the first k bytes of a block, `t` being the byte before. */
  function SumBlock(s: Perm, c: seq<bv8>, block: seq<bv8>, k: nat): (r: Check)
    requires |c| == |block| == 16 && k <= 16
    ensures |r.c| == 16
    ensures forall j :: k <= j < 16 ==> r.c[j] == c[j]
  {
    if k == 0 then Check(c, c[15])
    else SumStep(s, SumBlock(s, c, block, k - 1), k - 1, block[k - 1])
  }

  function Absorb(s: Perm, ctx: Context, b: bv8): (r: Context)
    requires ctx.Shaped()
    ensures r.Shaped()
  {
    var buffer := ctx.buffer[ctx.counter := b];
    if ctx.counter + 1 < 16 then ctx.(buffer := buffer, counter := ctx.counter + 1)
    else Context(buffer, EncryptBlock(s, ctx.state, buffer), SumBlock(s, ctx.checksum, buffer, |buffer|).c, 0)
  }

  /** The context after the bytes m, absorbed one at a time: no trace of how they were grouped. */
  function ContextOf(s: Perm, m: seq<bv8>): (ctx: Context)
    ensures ctx.Shaped()
  {
    if m == [] then Context(Zeros(16), Zeros(16), Zeros(16), 0)
    else Absorb(s, ContextOf(s, m[..|m| - 1]), m[|m| - 1])
  }

  lemma ContextSnoc(s: Perm, m: seq<bv8>, b: bv8)
    ensures ContextOf(s, m + [b]) == Absorb(s, ContextOf(s, m), b)
  {
    assert (m + [b])[..|m + [b]| - 1] == m;
  }

  lemma {:induction false} SumBlockIsChecksum(s: Perm, m: seq<bv8>, i: nat, c: Check, block: seq<bv8>, j: nat)
    requires i * 16 + 16 <= |m| && j <= 16
    requires c == Checksum(s, m, i, 0) && c.l == c.c[15]
    requires block == m[i * 16..i * 16 + 16]
    ensures SumBlock(s, c.c, block, j) == Checksum(s, m, i, j)
  {
    if j == 0 {
    } else {
      SumBlockIsChecksum(s, m, i, c, block, j - 1);
      assert block[j - 1] == m[i * 16 + j - 1];
    }
  }

  /** Invariant of the streaming form: everything in the context is a pass of the definition
      stopped at the last full block, the rest of the message waits in the buffer. */
  ghost predicate Represents(s: Perm, ctx: Context, m: seq<bv8>, k: nat)
    requires ctx.Shaped()
  {
    && |m| == k * 16 + ctx.counter
    && ctx.buffer[..ctx.counter] == m[k * 16..]
    && ctx.state == Work(s, m, k)[..16]
    && ctx.checksum == Checksum(s, m, k, 0).c
    && Checksum(s, m, k, 0).l == ctx.checksum[15]
  }

  lemma AbsorbInBlock(s: Perm, ctx: Context, m: seq<bv8>, k: nat, b: bv8)
    requires ctx.Shaped() && Represents(s, ctx, m, k) && ctx.counter < 15
    ensures Represents(s, Absorb(s, ctx, b), m + [b], k)
  {
    var all := m + [b];
    assert Absorb(s, ctx, b) == ctx.(buffer := ctx.buffer[ctx.counter := b], counter := ctx.counter + 1);
    Tail(ctx.buffer, ctx.counter, m, k * 16, b);
    assert Checksum(s, all, k, 0) == Checksum(s, m, k, 0) by { ChecksumPrefix(s, m, [b], k, 0); }
    assert Work(s, all, k) == Work(s, m, k) by { WorkPrefix(s, m, [b], k); }
  }

  lemma Tail(buffer: seq<bv8>, n: nat, m: seq<bv8>, at: nat, b: bv8)
    requires n < |buffer| && at + n == |m| && buffer[..n] == m[at..]
    ensures buffer[n := b][..n + 1] == (m + [b])[at..]
  {
    assert (m + [b])[at..] == m[at..] + [b];
  }

  lemma AbsorbBlockEnd(s: Perm, ctx: Context, m: seq<bv8>, k: nat, b: bv8)
    requires ctx.Shaped() && Represents(s, ctx, m, k) && ctx.counter == 15
    ensures Represents(s, Absorb(s, ctx, b), m + [b], k + 1)
  {
    var buffer := ctx.buffer[15 := b];
    var all := m + [b];
    assert buffer == all[k * 16..k * 16 + 16];
    assert |all| == (k + 1) * 16;
    WorkAtEnd(s, m, k, b, ctx.state, buffer);
    ChecksumAtEnd(s, m, k, b, ctx.checksum, buffer);
  }

  lemma WorkAtEnd(s: Perm, m: seq<bv8>, k: nat, b: bv8, state: seq<bv8>, block: seq<bv8>)
    requires |m| == k * 16 + 15 && block == (m + [b])[k * 16..k * 16 + 16]
    requires state == Work(s, m, k)[..16]
    ensures Work(s, m + [b], k + 1)[..16] == EncryptBlock(s, state, block)
  {
    WorkPrefix(s, m, [b], k);
  }

  lemma ChecksumAtEnd(s: Perm, m: seq<bv8>, k: nat, b: bv8, c: seq<bv8>, block: seq<bv8>)
    requires |m| == k * 16 + 15 && block == (m + [b])[k * 16..k * 16 + 16]
    requires c == Checksum(s, m, k, 0).c && Checksum(s, m, k, 0).l == c[15]
    ensures Checksum(s, m + [b], k + 1, 0) == SumBlock(s, c, block, |block|)
    ensures Checksum(s, m + [b], k + 1, 0).l == Checksum(s, m + [b], k + 1, 0).c[15]
  {
    ChecksumPrefix(s, m, [b], k, 0);
    SumBlockIsChecksum(s, m + [b], k, Checksum(s, m, k, 0), block, |block|);
  }

  lemma AbsorbKeeps(s: Perm, ctx: Context, m: seq<bv8>, k: nat, b: bv8) returns (k': nat)
    requires ctx.Shaped() && Represents(s, ctx, m, k)
    ensures Represents(s, Absorb(s, ctx, b), m + [b], k')
  {
    if ctx.counter < 15 {
      AbsorbInBlock(s, ctx, m, k, b);
      k' := k;
    } else {
      AbsorbBlockEnd(s, ctx, m, k, b);
      k' := k + 1;
    }
  }

  lemma {:induction false} ContextMeaning(s: Perm, m: seq<bv8>) returns (k: nat)
    ensures Represents(s, ContextOf(s, m), m, k)
  {
    if m == [] {
      k := 0;
    } else {
      var d, b := m[..|m| - 1], m[|m| - 1];
      assert m == d + [b];
      k := ContextMeaning(s, d);
      k := AbsorbKeeps(s, ContextOf(s, d), d, k, b);
      ContextSnoc(s, d, b);
    }
  }

  /** At a block boundary the context holds the definition's own passes over everything so far. */
  lemma AtBoundary(s: Perm, m: seq<bv8>, k: nat)
    requires |m| == k * 16
    ensures ContextOf(s, m).counter == 0
    ensures ContextOf(s, m).checksum == Checksum(s, m, k, 0).c
    ensures ContextOf(s, m).state == Work(s, m, k)[..16]
  {
    var k' := ContextMeaning(s, m);
    assert k' == k;
  }

  /** One pass, with the context's own checksum fed back in, computes the digest of the definition. */
  lemma OnePassDigest(s: Perm, m: seq<bv8>)
    ensures Padded(m) + ContextOf(s, Padded(m)).checksum == Completed(s, m)
    ensures ContextOf(s, Completed(s, m)).state == Digest(s, m)
  {
    AtBoundary(s, Padded(m), |Padded(m)| / 16);
    AtBoundary(s, Completed(s, m), |Completed(s, m)| / 16);
  }

  lemma WholeBlocks(n: nat, k: nat, rest: nat)
    requires n == k * 16 + rest && rest < 16
    ensures n % 16 == rest && n / 16 == k
  {
  }

  lemma CounterIsRemainder(s: Perm, m: seq<bv8>)
    ensures ContextOf(s, m).counter == |m| % 16
  {
    var k := ContextMeaning(s, m);
    WholeBlocks(|m|, k, ContextOf(s, m).counter);
  }

  function Patched(b: seq<bv8>, at: nat, c: seq<bv8>): (r: seq<bv8>)
    requires at + |c| <= |b|
    ensures |r| == |b|
  {
    b[..at] + c + b[at + |c|..]
  }

  function Copied(ctx: Context, c: seq<bv8>): Context
    requires ctx.Shaped() && ctx.counter + |c| <= 16
  {
    ctx.(buffer := Patched(ctx.buffer, ctx.counter, c), counter := ctx.counter + |c|)
  }

  function BlockDone(s: Perm, ctx: Context, c: seq<bv8>): Context
    requires ctx.Shaped() && ctx.counter + |c| == 16
  {
    var block := Patched(ctx.buffer, ctx.counter, c);
    Context(block, EncryptBlock(s, ctx.state, block), SumBlock(s, ctx.checksum, block, |block|).c, 0)
  }

  lemma AbsorbAfterCopy(s: Perm, ctx: Context, c: seq<bv8>, b: bv8)
    requires ctx.Shaped() && ctx.counter + |c| < 16
    ensures ctx.counter + |c| < 15 ==> Absorb(s, Copied(ctx, c), b) == Copied(ctx, c + [b])
    ensures ctx.counter + |c| == 15 ==> Absorb(s, Copied(ctx, c), b) == BlockDone(s, ctx, c + [b])
  {
    assert Patched(ctx.buffer, ctx.counter, c)[ctx.counter + |c| := b] == Patched(ctx.buffer, ctx.counter, c + [b]);
  }

  lemma SplitLast(m: seq<bv8>, c: seq<bv8>)
    requires c != []
    ensures m + c == (m + c[..|c| - 1]) + [c[|c| - 1]]
    ensures c == c[..|c| - 1] + [c[|c| - 1]]
  {
  }

  /** Absorbing bytes one by one short of a full block is one copy into the buffer. */
  lemma {:induction false} CopyInBlock(s: Perm, m: seq<bv8>, c: seq<bv8>, ctx: Context)
    requires ctx == ContextOf(s, m) && ctx.counter + |c| < 16
    ensures ContextOf(s, m + c) == Copied(ctx, c)
  {
    if c == [] {
      assert m + c == m;
      assert Patched(ctx.buffer, ctx.counter, c) == ctx.buffer;
    } else {
      var d, b := c[..|c| - 1], c[|c| - 1];
      SplitLast(m, c);
      CopyInBlock(s, m, d, ctx);
      ContextSnoc(s, m + d, b);
      AbsorbAfterCopy(s, ctx, d, b);
    }
  }

  /** The byte that fills the block also runs the block through state and checksum. */
  lemma CopyToBlockEnd(s: Perm, m: seq<bv8>, c: seq<bv8>, ctx: Context)
    requires ctx == ContextOf(s, m) && ctx.counter + |c| == 16
    ensures ContextOf(s, m + c) == BlockDone(s, ctx, c)
  {
    var d, b := c[..|c| - 1], c[|c| - 1];
    SplitLast(m, c);
    CopyInBlock(s, m, d, ctx);
    ContextSnoc(s, m + d, b);
    AbsorbAfterCopy(s, ctx, d, b);
  }

  /** The work area of one block: state, block, and their exclusive or. */
  method LoadWork(state: array<bv8>, block: array<bv8>) returns (work: array<bv8>)
    requires state.Length == block.Length == 16
    ensures fresh(work) && work.Length == 48
    ensures work[..] == state[..] + block[..] + Xor(state[..], block[..])
  {
    work := new bv8[48];
    Copy(work, 0, state, 0, 16);
    Copy(work, 16, block, 0, 16);
    ghost var front := work[..32];
    assert front == state[..] + block[..];
    for k := 0 to 16
      invariant work[..32] == front
      invariant forall j :: 0 <= j < k ==> work[32 + j] == state[j] ^ block[j]
    {
      work[32 + k] := state[k] ^ block[k];
    }
    assert work[32..] == Xor(state[..], block[..]);
    assert work[..] == work[..32] + work[32..];
  }

  method Encrypt(perm: Perm, work: array<bv8>)
    modifies work
    ensures work[..] == Rounds(perm, old(work[..]), 18).x
  {
    var t: bv8 := 0;
    for i := 0 to 18
      invariant Mix(work[..], t) == Rounds(perm, old(work[..]), i)
    {
      t := SweepInPlace(perm, work, t);
      t := NextT(t, i);
    }
  }

  method SweepInPlace(perm: Perm, work: array<bv8>, t0: bv8) returns (t: bv8)
    modifies work
    ensures Mix(work[..], t) == Sweep(perm, old(work[..]), t0, work.Length)
  {
    t := t0;
    for j := 0 to work.Length
      invariant Mix(work[..], t) == Sweep(perm, old(work[..]), t0, j)
    {
      work[j] := work[j] ^ perm(t);
      t := work[j];
    }
  }

  method SumByte(perm: Perm, checksum: array<bv8>, i: nat, b: bv8, t0: bv8) returns (t: bv8)
    requires checksum.Length == 16 && i < 16
    modifies checksum
    ensures Check(checksum[..], t) == SumStep(perm, Check(old(checksum[..]), t0), i, b)
  {
    checksum[i] := checksum[i] ^ perm(b ^ t0);
    t := checksum[i];
  }

  method UpdateChecksum(perm: Perm, checksum: array<bv8>, block: array<bv8>)
    requires checksum.Length == block.Length == 16 && checksum != block
    modifies checksum
    ensures checksum[..] == SumBlock(perm, old(checksum[..]), block[..], block.Length).c
  {
    var t := checksum[15];
    for i := 0 to block.Length
      invariant Check(checksum[..], t) == SumBlock(perm, old(checksum[..]), block[..], i)
    {
      t := SumByte(perm, checksum, i, block[i], t);
    }
  }

  /** Replaces state and checksum by their values after one more block. */
  method Compute(perm: Perm, state: array<bv8>, checksum: array<bv8>, block: array<bv8>)
    requires state.Length == checksum.Length == block.Length == 16
    requires state != checksum && state != block && checksum != block
    modifies state, checksum
    ensures state[..] == EncryptBlock(perm, old(state[..]), block[..])
    ensures checksum[..] == SumBlock(perm, old(checksum[..]), block[..], block.Length).c
  {
    var work := LoadWork(state, block);
    Encrypt(perm, work);
    ghost var w := work[..];
    UpdateChecksum(perm, checksum, block);
    for k := 0 to 16
      invariant work[..] == w
      invariant state[..k] == w[..k]
      invariant checksum[..] == SumBlock(perm, old(checksum[..]), block[..], block.Length).c
    {
      state[k] := work[k];
    }
    assert state[..] == w[..16];
  }

  lemma Adjacent(m: seq<bv8>, src: seq<bv8>, a: nat, b: nat, c: nat)
    requires a <= b <= c <= |src|
    ensures m + src[a..b] + src[b..c] == m + src[a..c]
  {
  }

  lemma PatchedOneMore(b: seq<bv8>, at: nat, c: seq<bv8>, x: bv8)
    requires at + |c| < |b|
    ensures Patched(b, at, c)[at + |c| := x] == Patched(b, at, c + [x])
  {
  }

  method Copy(dst: array<bv8>, to: nat, src: array<bv8>, from: nat, n: nat)
    requires to + n <= dst.Length && from + n <= src.Length && dst != src
    modifies dst
    ensures dst[..] == Patched(old(dst[..]), to, src[from..from + n])
  {
    ghost var was := dst[..];
    assert Patched(was, to, []) == was;
    for k := 0 to n
      invariant dst[..] == Patched(was, to, src[from..from + k])
    {
      PatchedOneMore(was, to, src[from..from + k], src[from + k]);
      assert src[from..from + k + 1] == src[from..from + k] + [src[from + k]];
      dst[to + k] := src[from + k];
    }
  }

  /** Fills the first n bytes with the value n. */
  method Pad(block: array<bv8>, n: nat)
    requires n <= block.Length && n <= 16
    modifies block
    ensures block[..n] == PadBytes(n)
  {
    for k := 0 to n
      invariant forall j :: 0 <= j < k ==> block[j] == n as bv8
    {
      block[k] := n as bv8;
    }
  }

  /** The streaming context. `absorbed` is everything fed in since initialisation. */
  class Md2Context {
    const perm: Perm
    const buffer: array<bv8>
    const state: array<bv8>
    const checksum: array<bv8>
    var counter: nat
    ghost var absorbed: seq<bv8>

    ghost predicate Shaped() {
      && buffer.Length == state.Length == checksum.Length == 16
      && buffer != state && buffer != checksum && state != checksum
    }

    ghost predicate Valid()
      reads this, buffer, state, checksum
    {
      Shaped() && Context(buffer[..], state[..], checksum[..], counter) == ContextOf(perm, absorbed)
    }

    constructor (p: Perm)
      ensures Valid() && perm == p && absorbed == []
      ensures fresh(buffer) && fresh(state) && fresh(checksum)
    {
      perm := p;
      buffer := new bv8[16](_ => 0);
      state := new bv8[16](_ => 0);
      checksum := new bv8[16](_ => 0);
      counter := 0;
      absorbed := [];
      new;
      assert buffer[..] == state[..] == checksum[..] == Zeros(16);
    }

    /** Takes a slice of `data`, in however many pieces the buffer needs. The context's own checksum
        may be the data as long as it fits in the buffer, because it is copied before it changes. */
    method Update(data: array<bv8>, from: nat, len: nat)
      requires Valid() && from + len <= data.Length
      requires data != buffer && data != state
      requires data == checksum ==> counter + len <= 16
      modifies this`counter, this`absorbed, buffer, state, checksum
      ensures Valid() && absorbed == old(absorbed) + old(data[from..from + len])
    {
      hide ContextOf;
      ghost var src := data[..];
      var at: nat, left: nat := from, len;
      while left > 0
        invariant Valid() && at + left == from + len && from <= at
        invariant absorbed == old(absorbed) + src[from..at]
        invariant data == checksum && left > 0 ==> at == from && counter == old(counter)
        invariant left > 0 ==> data[..] == src
      {
        var n := Feed(data, at, left);
        Adjacent(old(absorbed), src, from, at, at + n);
        at, left := at + n, left - n;
      }
      assert src[from..from + len] == old(data[from..from + len]);
    }

    /** One pass of the loop: as many bytes as the buffer takes, and the block if that fills it. */
    method Feed(data: array<bv8>, at: nat, left: nat) returns (n: nat)
      requires Valid() && 0 < left && at + left <= data.Length
      requires data != buffer
      modifies this`counter, this`absorbed, buffer, state, checksum
      ensures Valid() && 0 < n <= left && absorbed == old(absorbed) + old(data[at..at + n])
      ensures old(counter) + left <= 16 ==> n == left
      ensures data != state && data != checksum ==> data[..] == old(data[..])
    {
      hide ContextOf, EncryptBlock, SumBlock;
      n := if left < 16 - counter then left else 16 - counter;
      ghost var chunk, ctx := data[at..at + n], Context(buffer[..], state[..], checksum[..], counter);
      Copy(buffer, counter, data, at, n);
      ghost var full := counter + n >= 16;
      if counter + n >= 16 {
        Compute(perm, state, checksum, buffer);
        counter := 0;
      } else {
        counter := counter + n;
      }
      assert Context(buffer[..], state[..], checksum[..], counter)
          == if full then BlockDone(perm, ctx, chunk) else Copied(ctx, chunk);
      if full { CopyToBlockEnd(perm, absorbed, chunk, ctx); } else { CopyInBlock(perm, absorbed, chunk, ctx); }
      absorbed := absorbed + chunk;
    }

    method PadOut()
      requires Valid()
      modifies this`counter, this`absorbed, buffer, state, checksum
      ensures Valid() && counter == 0 && absorbed == Padded(old(absorbed))
    {
      CounterIsRemainder(perm, absorbed);
      var n := 16 - counter;
      var pad := new bv8[16];
      Pad(pad, n);
      assert pad[0..n] == PadBytes(n);
      Update(pad, 0, n);
      assert absorbed == Padded(old(absorbed));
      CounterIsRemainder(perm, absorbed);
    }

    method FeedChecksum()
      requires Valid() && counter == 0
      modifies this`counter, this`absorbed, buffer, state, checksum
      ensures Valid() && absorbed == old(absorbed) + old(checksum[..])
    {
      assert checksum[..] == checksum[0..checksum.Length];
      Update(checksum, 0, checksum.Length);
    }

    /** Pads, feeds the checksum, and returns the state, which is then the digest. */
    method End() returns (digest: array<bv8>)
      requires Valid()
      modifies this`counter, this`absorbed, buffer, state, checksum
      ensures Valid() && digest == state
      ensures absorbed == Completed(perm, old(absorbed))
      ensures digest[..] == Digest(perm, old(absorbed))
    {
      PadOut();
      OnePassDigest(perm, old(absorbed));
      FeedChecksum();
      digest := state;
    }
  }
}
