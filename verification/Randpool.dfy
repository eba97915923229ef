/** The entropy pool: a 64-byte ring into which bytes are mixed by exclusive or, read out by hashing. */
module Randpool {
  import opened Common
  import opened Rfc1319
  import opened Md2

  function Mix8(a: bv8, b: bv8): bv8 { a ^ b }

  lemma Mix8Laws(a: bv8, b: bv8)
    ensures Mix8(a, 0) == a && Mix8(Mix8(a, b), b) == a
  {
    assert Mix8(a ^ b, b) == a;
  }

  lemma Mix8Associates(a: bv8, b: bv8, c: bv8)
    ensures Mix8(Mix8(a, b), c) == Mix8(a, Mix8(b, c))
  {
    assert Mix8(a ^ b, c) == a ^ b ^ c;
    assert Mix8(a, b ^ c) == a ^ b ^ c;
  }

  datatype Pool = Pool(bytes: seq<bv8>, posAdd: nat, posGet: nat, counter: nat)
  {
    /** What every call keeps: the write position is in the ring, the read position at a digest inside it. */
    predicate Valid() {
      |bytes| == 64 && posAdd < 64 && (posGet == 16 || posGet == 32 || posGet == 48)
    }
  }

  // ---- pushing bytes ----------------------------------------------------------------------------

  function PushByte(p: Pool, b: bv8): (r: Pool)
    requires p.Valid()
    ensures r.Valid()
  {
    p.(bytes := p.bytes[p.posAdd := Mix8(p.bytes[p.posAdd], b)], posAdd := (p.posAdd + 1) % 64)
  }

  function Push(p: Pool, data: seq<bv8>): (r: Pool)
    requires p.Valid()
    ensures r.Valid() && r.posGet == p.posGet && r.counter == p.counter
  {
    if data == [] then p else PushByte(Push(p, data[..|data| - 1]), data[|data| - 1])
  }

  /** The exclusive or of the bytes j of the data for which (start + j) mod 64 = k. */
  function Mixed(data: seq<bv8>, start: nat, k: nat): bv8 {
    if data == [] then 0
    else
      var n := |data| - 1;
      if (start + n) % 64 == k then Mix8(Mixed(data[..n], start, k), data[n]) else Mixed(data[..n], start, k)
  }

  lemma NextPosition(start: nat, n: nat)
    ensures ((start + n) % 64 + 1) % 64 == (start + n + 1) % 64
  {
  }

  /** Pushing changes each byte of the ring by exactly the data bytes that fall on it. */
  lemma {:induction false} PushClosedForm(p: Pool, data: seq<bv8>)
    requires p.Valid()
    ensures Push(p, data).posAdd == (p.posAdd + |data|) % 64
    ensures forall k :: 0 <= k < 64 ==> Push(p, data).bytes[k] == Mix8(p.bytes[k], Mixed(data, p.posAdd, k))
  {
    if data == [] {
      forall k | 0 <= k < 64 ensures Push(p, data).bytes[k] == Mix8(p.bytes[k], Mixed(data, p.posAdd, k)) {
        Mix8Laws(p.bytes[k], 0);
      }
    } else {
      var n := |data| - 1;
      var q := Push(p, data[..n]);
      PushClosedForm(p, data[..n]);
      NextPosition(p.posAdd, n);
      forall k | 0 <= k < 64 ensures Push(p, data).bytes[k] == Mix8(p.bytes[k], Mixed(data, p.posAdd, k)) {
        if k == q.posAdd { Mix8Associates(p.bytes[k], Mixed(data[..n], p.posAdd, k), data[n]); }
      }
    }
  }

  /** Pushes compose over concatenation. */
  lemma {:induction false} PushAppend(p: Pool, a: seq<bv8>, b: seq<bv8>)
    requires p.Valid()
    ensures Push(p, a + b) == Push(Push(p, a), b)
  {
    if b == [] {
      assert a + b == a;
    } else {
      PushAppend(p, a, b[..|b| - 1]);
      assert (a + b)[..|a + b| - 1] == a + b[..|b| - 1];
    }
  }

  /** Repeating a push from the same position undoes it. */
  lemma PushTwice(p: Pool, data: seq<bv8>)
    requires p.Valid()
    ensures Push(Push(p, data).(posAdd := p.posAdd), data).bytes == p.bytes
  {
    var q := Push(p, data).(posAdd := p.posAdd);
    PushClosedForm(p, data);
    PushClosedForm(q, data);
    forall k | 0 <= k < 64 ensures Push(q, data).bytes[k] == p.bytes[k] {
      Mix8Laws(p.bytes[k], Mixed(data, p.posAdd, k));
    }
  }

  // ---- stirring ---------------------------------------------------------------------------------

  /** What the timer gives: its value, and the difference to the value before, as bytes in memory. */
  datatype Stamp = Stamp(event: seq<bv8>, delta: seq<bv8>)

  const SEPARATOR: seq<bv8> := [0xAA, 0xAA, 0xAA, 0xAA]

  /** What one stirring reads from outside: two timer readings and the four texts it formats. */
  datatype Outside = Outside(first: Stamp, texts: seq<seq<bv8>>, last: Stamp)

  /** Data, then timer value, separator and timer difference. */
  function Add(p: Pool, data: seq<bv8>, at: Stamp): (r: Pool)
    requires p.Valid()
    ensures r.Valid() && r.posGet == p.posGet && r.counter == p.counter
  {
    Push(Push(Push(Push(p, data), at.event), SEPARATOR), at.delta)
  }

  /** The text formatted in pass i; the model allows any. */
  function TextAt(o: Outside, i: nat): seq<bv8> {
    if i < |o.texts| then o.texts[i] else []
  }

  /** One pass of stirring: the pool and a text are hashed on, and the digest is pushed back. */
  function StirPass(s: Perm, q: Pool, fed: seq<bv8>, text: seq<bv8>): (r: (Pool, seq<bv8>))
    requires q.Valid()
    ensures r.0.Valid() && r.0.posGet == q.posGet && r.0.counter == q.counter + 1
  {
    var m := fed + q.bytes + text;
    (Push(q, Digest(s, m)).(counter := q.counter + 1), Completed(s, m))
  }

  /** Pool and hashed bytes after i passes. */
  function StirPasses(s: Perm, p: Pool, o: Outside, i: nat): (r: (Pool, seq<bv8>))
    requires p.Valid()
    ensures r.0.Valid() && r.0.posGet == p.posGet && r.0.counter == p.counter + i
  {
    if i == 0 then (p, [])
    else
      var (q, fed) := StirPasses(s, p, o, i - 1);
      StirPass(s, q, fed, TextAt(o, i - 1))
  }

  function Stir(s: Perm, p: Pool, o: Outside): (r: Pool)
    requires p.Valid()
    ensures r.Valid() && r.posGet == p.posGet
  {
    Add(StirPasses(s, Add(p, [], o.first), o, |p.bytes| / 16).0, [], o.last)
  }

  // ---- reading ----------------------------------------------------------------------------------

  predicate IsReadPosition(i: nat) {
    i == 16 || i == 32 || i == 48
  }

  /** After the digest at i: the next one, or the pool stirred (for the k-th time) and its read position. */
  function Onward(s: Perm, p: Pool, i: nat, env: nat -> Outside, k: nat): (r: (Pool, nat, nat))
    requires p.Valid() && IsReadPosition(i)
    ensures r.0.Valid() && IsReadPosition(r.1)
  {
    if i == 48 then (Stir(s, p, env(k)), p.posGet, k + 1) else (p, i + 16, k)
  }

  /** What is hashed for the digest at i, after `fed`. */
  function Hashed(p: Pool, i: nat, fed: seq<bv8>): seq<bv8>
    requires p.Valid() && IsReadPosition(i)
  {
    fed + p.bytes[i..i + 16]
  }

  /** Reading n bytes from position i, with `fed` hashed so far and `k` stirrings done. */
  function GetFrom(s: Perm, p: Pool, i: nat, n: nat, fed: seq<bv8>, env: nat -> Outside, k: nat): (r: (Pool, seq<bv8>))
    requires p.Valid() && IsReadPosition(i)
    ensures r.0.Valid() && |r.1| == n
    decreases n
  {
    if n == 0 then (p.(posGet := i), [])
    else
      var m := Hashed(p, i, fed);
      var (q, j, l) := Onward(s, p, i, env, k);
      var (r, rest) := GetFrom(s, q, j, n - Min(16, n), Completed(s, m), env, l);
      (r, Digest(s, m)[..Min(16, n)] + rest)
  }

  /** Reading n bytes and leaving the pool to be read on; every read starts a new hash. */
  function Get(s: Perm, p: Pool, n: nat, env: nat -> Outside): (r: (Pool, seq<bv8>))
    requires p.Valid()
    ensures r.0.Valid() && |r.1| == n
  {
    GetFrom(s, p, p.posGet, n, [], env, 0)
  }

  /** What is left of a read after its first digest. */
  function AfterDigest(s: Perm, p: Pool, i: nat, n: nat, fed: seq<bv8>, env: nat -> Outside, k: nat): (Pool, seq<bv8>)
    requires p.Valid() && IsReadPosition(i) && n > 0
  {
    var (q, j, l) := Onward(s, p, i, env, k);
    GetFrom(s, q, j, n - Min(16, n), Completed(s, Hashed(p, i, fed)), env, l)
  }

  lemma GetUnfolds(s: Perm, p: Pool, i: nat, n: nat, fed: seq<bv8>, env: nat -> Outside, k: nat, done: seq<bv8>)
    requires p.Valid() && IsReadPosition(i) && n > 0
    ensures Continued(done, GetFrom(s, p, i, n, fed, env, k))
         == Continued(done + Digest(s, Hashed(p, i, fed))[..Min(16, n)], AfterDigest(s, p, i, n, fed, env, k))
  {
    Associate(done, Digest(s, Hashed(p, i, fed))[..Min(16, n)], AfterDigest(s, p, i, n, fed, env, k).1);
  }

  /** What has been read so far, before the rest of a read. */
  function Continued(done: seq<bv8>, rest: (Pool, seq<bv8>)): (Pool, seq<bv8>) {
    (rest.0, done + rest.1)
  }

  lemma FirstBlockPrefix(done: seq<bv8>, d: seq<bv8>, m: nat, n: nat, longer: seq<bv8>)
    requires m <= n <= |d|
    ensures ((done + d[..n]) + longer)[..|done| + m] == done + d[..m]
  {
  }

  lemma {:induction false} PrefixAfter(s: Perm, p: Pool, i: nat, m: nat, n: nat, fed: seq<bv8>,
                                       env: nat -> Outside, k: nat, done: seq<bv8>)
    requires p.Valid() && IsReadPosition(i) && 0 < m <= n
    ensures Continued(done, GetFrom(s, p, i, n, fed, env, k)).1[..|done| + m]
         == Continued(done, GetFrom(s, p, i, m, fed, env, k)).1
    decreases m
  {
    hide Digest, Completed, Push;
    GetUnfolds(s, p, i, m, fed, env, k, done);
    GetUnfolds(s, p, i, n, fed, env, k, done);
    var msg := Hashed(p, i, fed);
    var (q, j, l) := Onward(s, p, i, env, k);
    if m <= 16 {
      var longer := GetFrom(s, q, j, n - Min(16, n), Completed(s, msg), env, l).1;
      FirstBlockPrefix(done, Digest(s, msg), m, Min(16, n), longer);
      var now := done + Digest(s, msg)[..m];
      assert now + [] == now;
    } else {
      PrefixAfter(s, q, j, m - 16, n - 16, Completed(s, msg), env, l, done + Digest(s, msg)[..16]);
    }
  }

  lemma ContinuedFromNothing(all: (Pool, seq<bv8>))
    ensures Continued([], all) == all
  {
    assert [] + all.1 == all.1;
  }

  lemma GetNothing(s: Perm, p: Pool, i: nat, fed: seq<bv8>, env: nat -> Outside, k: nat, done: seq<bv8>)
    requires p.Valid() && IsReadPosition(i)
    ensures Continued(done, GetFrom(s, p, i, 0, fed, env, k)) == (p.(posGet := i), done)
  {
    assert done + [] == done;
  }

  /** A shorter read from the same pool gives a prefix of a longer one. */
  lemma GetPrefix(s: Perm, p: Pool, m: nat, n: nat, env: nat -> Outside)
    requires p.Valid() && m <= n
    ensures Get(s, p, n, env).1[..m] == Get(s, p, m, env).1
  {
    hide Digest, Completed, Push;
    if m > 0 {
      PrefixAfter(s, p, p.posGet, m, n, [], env, 0, []);
      ContinuedFromNothing(Get(s, p, n, env));
      ContinuedFromNothing(Get(s, p, m, env));
    }
  }

  // ---- laws of adding, stirring and reading -----------------------------------------------------

  /** Adding mixes data, timer value, four separator bytes and timer difference into the ring, in this order. */
  lemma AddClosedForm(p: Pool, data: seq<bv8>, at: Stamp)
    requires p.Valid()
    ensures var all := data + at.event + [0xAA, 0xAA, 0xAA, 0xAA] + at.delta;
            && Add(p, data, at).posAdd == (p.posAdd + |all|) % 64
            && (forall k :: 0 <= k < 64 ==> Add(p, data, at).bytes[k] == Mix8(p.bytes[k], Mixed(all, p.posAdd, k)))
  {
    hide Push, Mix8, Mixed;
    PushAppend(p, data, at.event);
    PushAppend(p, data + at.event, SEPARATOR);
    PushAppend(p, data + at.event + SEPARATOR, at.delta);
    PushClosedForm(p, data + at.event + SEPARATOR + at.delta);
  }

  /** A pass of stirring mixes in the digest of all that was hashed so far, the whole ring and the text, and
      goes on hashing from the completed message. */
  lemma StirPassClosedForm(s: Perm, q: Pool, fed: seq<bv8>, text: seq<bv8>)
    requires q.Valid()
    ensures var (r, next) := StirPass(s, q, fed, text);
            && r.posAdd == (q.posAdd + 16) % 64 && r.counter == q.counter + 1
            && next == Completed(s, fed + q.bytes + text)
            && (forall k :: 0 <= k < 64 ==>
                  r.bytes[k] == Mix8(q.bytes[k], Mixed(Digest(s, fed + q.bytes + text), q.posAdd, k)))
  {
    hide Push, Mix8, Mixed, Digest, Completed;
    PushClosedForm(q, Digest(s, fed + q.bytes + text));
  }

  /** Stirring is four passes, each with its own text, between two additions of timer values alone. */
  lemma StirUnfolds(s: Perm, p: Pool, o: Outside)
    requires p.Valid() && |o.texts| == 4
    ensures var a := StirPass(s, Add(p, [], o.first), [], o.texts[0]);
            var b := StirPass(s, a.0, a.1, o.texts[1]);
            var c := StirPass(s, b.0, b.1, o.texts[2]);
            var d := StirPass(s, c.0, c.1, o.texts[3]);
            Stir(s, p, o) == Add(d.0, [], o.last)
  {
    hide StirPass, Add;
    var q := Add(p, [], o.first);
    assert StirPasses(s, q, o, 1) == StirPass(s, q, [], o.texts[0]);
    assert StirPasses(s, q, o, 2).0.Valid() && StirPasses(s, q, o, 3).0.Valid();
  }

  lemma {:induction false} PassesPosition(s: Perm, p: Pool, o: Outside, i: nat)
    requires p.Valid()
    ensures StirPasses(s, p, o, i).0.posAdd == (p.posAdd + 16 * i) % 64
  {
    hide StirPass;
    if i == 0 {
    } else {
      PassesPosition(s, p, o, i - 1);
      var (q, fed) := StirPasses(s, p, o, i - 1);
      StirPassClosedForm(s, q, fed, TextAt(o, i - 1));
      NextPositions(p.posAdd, 16 * (i - 1), 16);
    }
  }

  lemma NextPositions(start: nat, n: nat, m: nat)
    ensures ((start + n) % 64 + m) % 64 == (start + n + m) % 64
  {
  }

  lemma AddNothingPosition(p: Pool, at: Stamp)
    requires p.Valid()
    ensures Add(p, [], at).posAdd == (p.posAdd + (|at.event| + |at.delta| + 4)) % 64
  {
    hide Add;
    AddClosedForm(p, [], at);
  }

  lemma FourPasses(s: Perm, p: Pool, o: Outside)
    requires p.Valid()
    ensures StirPasses(s, p, o, 4).0.posAdd == p.posAdd
  {
    hide StirPasses;
    PassesPosition(s, p, o, 4);
  }

  /** Stirring makes four passes, one for every sixteen bytes of the ring, and moves the write position only
      by the two additions around them. */
  lemma StirCounts(s: Perm, p: Pool, o: Outside)
    requires p.Valid()
    ensures Stir(s, p, o).counter == p.counter + 4
    ensures Stir(s, p, o).posAdd
         == (p.posAdd + |o.first.event| + |o.first.delta| + |o.last.event| + |o.last.delta| + 8) % 64
  {
    hide Add, StirPasses;
    var first := Add(p, [], o.first);
    AddNothingPosition(p, o.first);
    FourPasses(s, first, o);
    AddNothingPosition(StirPasses(s, first, o, 4).0, o.last);
    NextPositions(p.posAdd, |o.first.event| + |o.first.delta| + 4, |o.last.event| + |o.last.delta| + 4);
  }

  /** The first sixteen bytes read are the digest of the sixteen ring bytes at the read position. */
  lemma FirstDigest(s: Perm, p: Pool, n: nat, env: nat -> Outside)
    requires p.Valid() && 1 <= n <= 16
    ensures Get(s, p, n, env).1 == Digest(s, p.bytes[p.posGet..p.posGet + 16])[..n]
  {
    hide Digest, Completed, Stir;
    assert [] + p.bytes[p.posGet..p.posGet + 16] == p.bytes[p.posGet..p.posGet + 16];
    GetUnfolds(s, p, p.posGet, n, [], env, 0, []);
    ContinuedFromNothing(Get(s, p, n, env));
    var d := Digest(s, p.bytes[p.posGet..p.posGet + 16])[..n];
    assert [] + d == d && d + [] == d;
  }

  /** The next sixteen are the digest of that message completed, followed by the next sixteen ring bytes; at
      the end of the ring those are read from the stirred ring, at the read position it was read from. */
  lemma SecondDigest(s: Perm, p: Pool, n: nat, env: nat -> Outside)
    requires p.Valid() && 17 <= n <= 32
    ensures var first := p.bytes[p.posGet..p.posGet + 16];
            var next := if p.posGet == 48 then Stir(s, p, env(0)).bytes[48..64]
                        else p.bytes[p.posGet + 16..p.posGet + 32];
            Get(s, p, n, env).1 == Digest(s, first) + Digest(s, Completed(s, first) + next)[..n - 16]
  {
    hide Digest, Completed, Stir;
    var first := p.bytes[p.posGet..p.posGet + 16];
    assert [] + first == first;
    var (q, j, l) := Onward(s, p, p.posGet, env, 0);
    var d := Digest(s, first);
    assert [] + d[..16] == d;
    GetUnfolds(s, p, p.posGet, n, [], env, 0, []);
    GetUnfolds(s, q, j, n - 16, Completed(s, first), env, l, d);
    ContinuedFromNothing(Get(s, p, n, env));
    var e := d + Digest(s, Hashed(q, j, Completed(s, first)))[..n - 16];
    assert e + [] == e;
  }

  /** Where reading stands after b digests from position i, when a stirred ring is read from `start`. */
  function AfterDigests(start: nat, i: nat, b: nat): nat
    requires start == 16 || start == 32 || start == 48
    requires i == 16 || i == 32 || i == 48
    decreases b
  {
    if b == 0 then i else AfterDigests(start, if i == 48 then start else i + 16, b - 1)
  }

  lemma {:induction false} AfterDigestsFrom16(i: nat, b: nat)
    requires i == 16 || i == 32 || i == 48
    ensures AfterDigests(16, i, b) == 16 + 16 * ((i / 16 - 1 + b) % 3)
    decreases b
  {
    if b == 0 {
    } else {
      AfterDigestsFrom16(if i == 48 then 16 else i + 16, b - 1);
    }
  }

  lemma {:induction false} AfterDigestsFrom32(i: nat, b: nat)
    requires i == 32 || i == 48
    ensures AfterDigests(32, i, b) == 32 + 16 * ((i / 16 + b) % 2)
    decreases b
  {
    if b == 0 {
    } else {
      AfterDigestsFrom32(if i == 48 then 32 else i + 16, b - 1);
    }
  }

  lemma {:induction false} AfterDigestsFrom48(b: nat)
    ensures AfterDigests(48, 48, b) == 48
  {
    if b == 0 {
    } else {
      AfterDigestsFrom48(b - 1);
    }
  }

  lemma AfterDigestsRepeat(start: nat, b: nat)
    requires start == 16 || start == 32 || start == 48
    ensures start == 16 ==> AfterDigests(start, start, b) == 16 + 16 * (b % 3)
    ensures start == 32 ==> AfterDigests(start, start, b) == 32 + 16 * (b % 2)
    ensures start == 48 ==> AfterDigests(start, start, b) == 48
  {
    hide AfterDigests;
    if start == 16 {
      AfterDigestsFrom16(16, b);
    } else if start == 32 {
      AfterDigestsFrom32(32, b);
      assert (2 + b) % 2 == b % 2;
    } else {
      AfterDigestsFrom48(b);
    }
  }

  lemma {:induction false} PositionFrom(s: Perm, p: Pool, i: nat, n: nat, fed: seq<bv8>,
                                        env: nat -> Outside, k: nat)
    requires p.Valid() && IsReadPosition(i)
    ensures GetFrom(s, p, i, n, fed, env, k).0.posGet == AfterDigests(p.posGet, i, (n + 15) / 16)
    ensures i + 16 * ((n + 15) / 16) < 64 ==>
              GetFrom(s, p, i, n, fed, env, k).0 == p.(posGet := i + 16 * ((n + 15) / 16))
    decreases n
  {
    hide Digest, Completed, Stir;
    if n == 0 {
    } else {
      var (q, j, l) := Onward(s, p, i, env, k);
      PositionFrom(s, q, j, n - Min(16, n), Completed(s, Hashed(p, i, fed)), env, l);
    }
  }

  /** A read takes one digest for every sixteen bytes begun: the position moves on by 16 for each, and comes
      back to where this pool's reading started whenever the end is reached and the ring stirred. A read that
      does not reach the end leaves the ring as it is. */
  lemma ReadMovesOn(s: Perm, p: Pool, n: nat, env: nat -> Outside)
    requires p.Valid()
    ensures var r := Get(s, p, n, env).0; var digests := (n + 15) / 16;
            && (p.posGet == 16 ==> r.posGet == 16 + 16 * (digests % 3))
            && (p.posGet == 32 ==> r.posGet == 32 + 16 * (digests % 2))
            && (p.posGet == 48 ==> r.posGet == 48)
            && (p.posGet + 16 * digests < 64 ==> r == p.(posGet := p.posGet + 16 * digests))
  {
    hide GetFrom, AfterDigests;
    PositionFrom(s, p, p.posGet, n, [], env, 0);
    AfterDigestsRepeat(p.posGet, (n + 15) / 16);
  }

  // ---- the routines -----------------------------------------------------------------------------

  class EntropyPool {
    const perm: Perm
    const poolEntropy: array<bv8>
    var posAdd: nat
    var posGet: nat
    var counter: nat

    ghost predicate Shaped() {
      poolEntropy.Length == 64
    }

    ghost function Value(): (p: Pool)
      reads this, poolEntropy
    {
      Pool(poolEntropy[..], posAdd, posGet, counter)
    }

    ghost predicate Valid()
      reads this, poolEntropy
    {
      Shaped() && Value().Valid()
    }

    /** An empty pool, or one filled from at most 64 given bytes. */
    constructor (s: Perm, data: seq<bv8>)
      ensures Valid() && fresh(poolEntropy) && perm == s
      ensures posAdd == 0 && posGet == 16 && counter == 0
      ensures poolEntropy[..Min(|data|, 64)] == data[..Min(|data|, 64)]
      ensures forall k :: |data| <= k < 64 ==> poolEntropy[k] == 0
    {
      perm := s;
      var len := Min(|data|, 64);
      poolEntropy := new bv8[64](i => if 0 <= i < len then data[i] else 0);
      posAdd, posGet, counter := 0, 16, 0;
    }

    method PushBytes(data: array<bv8>, n: nat)
      requires Valid() && n <= data.Length && data != poolEntropy
      modifies this`posAdd, poolEntropy
      ensures Valid() && Value() == Push(old(Value()), data[..n])
    {
      var i: nat := posAdd;
      ghost var start := Value();
      for j := 0 to n
        invariant Valid() && i < 64 && posAdd == start.posAdd
        invariant Value().(posAdd := i) == Push(start, data[..j])
      {
        assert data[..j + 1][..j] == data[..j];
        poolEntropy[i] := Mix8(poolEntropy[i], data[j]);
        i := i + 1;
        i := i % 64;
      }
      posAdd := i;
    }

    method PushSeq(bytes: seq<bv8>)
      requires Valid()
      modifies this`posAdd, poolEntropy
      ensures Valid() && Value() == Push(old(Value()), bytes)
    {
      var a := new bv8[|bytes|](i requires 0 <= i < |bytes| => bytes[i]);
      assert a[..|bytes|] == bytes;
      PushBytes(a, |bytes|);
    }

    /** `entropy` is in bits; the bytes that hold them are pushed. */
    method AddData(data: array<bv8>, entropy: nat, at: Stamp)
      requires Valid() && RoundUp8(entropy) <= data.Length && data != poolEntropy
      modifies this`posAdd, poolEntropy
      ensures Valid() && Value() == Add(old(Value()), data[..RoundUp8(entropy)], at)
    {
      PushBytes(data, RoundUp8(entropy));
      PushSeq(at.event);
      PushSeq(SEPARATOR);
      PushSeq(at.delta);
    }

    /** The context and the pool share no memory. */
    ghost predicate Apart(context: Md2Context) {
      && context.buffer != poolEntropy && context.state != poolEntropy && context.checksum != poolEntropy
    }

    method HashPool(context: Md2Context, text: seq<bv8>)
      requires Valid() && context.Valid() && context.perm == perm && Apart(context)
      modifies this`posAdd, this`counter, poolEntropy
      modifies context`counter, context`absorbed, context.buffer, context.state, context.checksum
      ensures Valid() && context.Valid()
      ensures (Value(), context.absorbed) == StirPass(perm, old(Value()), old(context.absorbed), text)
    {
      hide Digest, Completed, Push;
      HashOn(context, poolEntropy);
      var tmp := new bv8[|text|](j requires 0 <= j < |text| => text[j]);
      assert tmp[..] == text;
      HashOn(context, tmp);
      var digest := context.End();
      PushDigest(digest);
      counter := counter + 1;
    }

    method HashOn(context: Md2Context, data: array<bv8>)
      requires context.Valid() && data != context.buffer && data != context.state && data != context.checksum
      modifies context`counter, context`absorbed, context.buffer, context.state, context.checksum
      ensures context.Valid() && context.absorbed == old(context.absorbed) + data[..]
    {
      assert data[0..0 + data.Length] == data[..];
      context.Update(data, 0, data.Length);
    }

    method PushDigest(digest: array<bv8>)
      requires Valid() && digest.Length == 16 && digest != poolEntropy
      modifies this`posAdd, poolEntropy
      ensures Valid() && Value() == Push(old(Value()), digest[..])
    {
      assert digest[..16] == digest[..];
      PushBytes(digest, 16);
    }

    method StirPool(o: Outside)
      requires Valid()
      modifies this`posAdd, this`counter, poolEntropy
      ensures Valid() && Value() == Stir(perm, old(Value()), o)
    {
      var context := new Md2Context(perm);
      AddNothing(o.first);
      ghost var start := Value();
      for i := 0 to 4
        invariant Valid() && context.Valid() && context.perm == perm
        invariant fresh(context) && fresh(context.buffer) && fresh(context.state) && fresh(context.checksum)
        invariant (Value(), context.absorbed) == StirPasses(perm, start, o, i)
      {
        HashPool(context, TextAt(o, i));
      }
      AddNothing(o.last);
    }

    /** randpool_add(pool, NULL, 0) */
    method AddNothing(at: Stamp)
      requires Valid()
      modifies this`posAdd, poolEntropy
      ensures Valid() && Value() == Add(old(Value()), [], at)
    {
      var none := new bv8[0];
      assert none[..0] == [];
      AddData(none, 0, at);
    }

    /** Hashes on the sixteen bytes at i and copies the start of the digest out. */
    method TakeDigest(context: Md2Context, i: nat, data: array<bv8>, at: nat, len: nat)
      requires Valid() && context.Valid() && context.perm == perm && Apart(context) && IsReadPosition(i)
      requires len <= 16 && at + len <= data.Length && data != poolEntropy
      requires data != context.buffer && data != context.state && data != context.checksum
      modifies context`counter, context`absorbed, context.buffer, context.state, context.checksum, data
      ensures context.Valid()
      ensures var message := old(context.absorbed) + Value().bytes[i..i + 16];
              && context.absorbed == Completed(perm, message)
              && data[..at + len] == old(data[..at]) + Digest(perm, message)[..len]
      ensures data[at + len..] == old(data[at + len..])
    {
      hide Digest, Completed, Push;
      context.Update(poolEntropy, i, 16);
      var digest := context.End();
      Copy(data, at, digest, 0, len);
    }

    /** The next sixteen bytes to hash, of the stirred ring after its end. */
    method MoveOn(i: nat, env: nat -> Outside, k: nat) returns (j: nat, l: nat)
      requires Valid() && IsReadPosition(i)
      modifies this`posAdd, this`counter, poolEntropy
      ensures Valid() && (Value(), j, l) == Onward(perm, old(Value()), i, env, k)
    {
      hide Stir;
      j, l := (i + 16) % 64, k;
      if j < 16 {
        StirPool(env(k));
        j, l := posGet, k + 1;
      }
    }

    /** Fills data[..n] and leaves the rest alone. `env` is what the k-th stirring will see. */
    method GetBytes(data: array<bv8>, n: nat, env: nat -> Outside)
      requires Valid() && n <= data.Length && data != poolEntropy
      modifies this, poolEntropy, data
      ensures Valid() && (Value(), data[..n]) == Get(perm, old(Value()), n, env)
      ensures data[n..] == old(data[n..])
    {
      hide Digest, Completed, GetFrom, Onward;
      var context := new Md2Context(perm);
      var i: nat, left: nat, k: nat := posGet, n, 0;
      assert 16 + i <= 64;
      ghost var all := Get(perm, Value(), n, env);
      ContinuedFromNothing(all);
      while left > 0
        invariant Valid() && context.Valid() && context.perm == perm && IsReadPosition(i) && left <= n
        invariant fresh(context) && fresh(context.buffer) && fresh(context.state) && fresh(context.checksum)
        invariant all == Continued(data[..n - left], GetFrom(perm, Value(), i, left, context.absorbed, env, k))
        invariant data[n..] == old(data[n..])
      {
        var len := if left < 16 then left else 16;
        ghost var p, fed, done := Value(), context.absorbed, data[..n - left];
        GetUnfolds(perm, p, i, left, fed, env, k, done);
        TakeDigest(context, i, data, n - left, len);
        left := left - len;
        i, k := MoveOn(i, env, k);
      }
      GetNothing(perm, Value(), i, context.absorbed, env, k, data[..n]);
      posGet := i;
    }
  }

  /** Bytes that hold x bits: ROUND_UP(x, 8) / 8. */
  function RoundUp8(x: nat): (n: nat)
    ensures x <= 8 * n < x + 8
  {
    (x + 7 - (x + 7) % 8) / 8
  }
}
