/** Run-length coding: a stream of runs, each with a signed length byte, closed by a zero byte. */
module Rle {
  import opened Common
  import opened Octets

  // ---- what the encoder writes ------------------------------------------------------------------

  /** End of the stretch of bytes equal to x[c], looking from i on, at most 127 from c. */
  function SameEnd(x: seq<u8>, c: nat, i: nat): (e: nat)
    requires c < i <= |x| && i - c <= 127
    ensures i <= e <= |x| && e - c <= 127
    decreases |x| - i
  {
    if i < |x| && i - c < 127 && x[i] == x[c] then SameEnd(x, c, i + 1) else i
  }

  /** End of a literal run, looking from i on: two before the third of three equal bytes, or 127 from c. */
  function LiteralEnd(x: seq<u8>, c: nat, i: nat): (e: nat)
    requires c < i <= |x| && i - c <= 127
    requires i == c + 1 ==> i == |x| || x[i] != x[c]
    requires i == c + 2 ==> x[c + 1] != x[c]
    ensures c < e <= |x| && e - c <= 127
    decreases |x| - i
  {
    if i < |x| && i - c < 127 then
      if x[i] == x[i - 1] && i > 1 && x[i] == x[i - 2] then i - 2
      else LiteralEnd(x, c, i + 1)
    else i
  }

  /** End of the run that starts at c. */
  function RunEnd(x: seq<u8>, c: nat): (e: nat)
    requires c < |x|
    ensures c < e <= |x| && e - c <= 127
  {
    var same := SameEnd(x, c, c + 1);
    if same == c + 1 then LiteralEnd(x, c, c + 1) else same
  }

  /** Minus the number of bytes, as an octet, and the bytes. */
  function LiteralRun(bytes: seq<u8>): (r: seq<u8>)
    requires |bytes| <= 127
    ensures |r| == 1 + |bytes|
  {
    [Cast8(0x100 - |bytes|)] + bytes
  }

  function ReplicateRun(value: u8, n: nat): (r: seq<u8>)
    requires n <= 127
    ensures |r| == 2
  {
    [n as u8, value]
  }

  function EncodeRun(x: seq<u8>, c: nat): (r: seq<u8>)
    requires c < |x|
  {
    var e := RunEnd(x, c);
    if SameEnd(x, c, c + 1) == c + 1 then LiteralRun(x[c..e]) else ReplicateRun(x[c], e - c)
  }

  /** The encoding of x from c on, with the closing byte. */
  function EncodeFrom(x: seq<u8>, c: nat): (r: seq<u8>)
    requires c <= |x|
    decreases |x| - c
  {
    if c == |x| then [0] else EncodeRun(x, c) + EncodeFrom(x, RunEnd(x, c))
  }

  function Encode(x: seq<u8>): seq<u8> {
    EncodeFrom(x, 0)
  }

  // ---- what the decoder makes of a stream -------------------------------------------------------

  datatype Decoded = Truncated | Decoded(bytes: seq<u8>, used: nat)

  function Fill(value: u8, n: nat): (r: seq<u8>)
    ensures |r| == n
  {
    seq(n, _ => value)
  }

  function Prepend(run: seq<u8>, size: nat, rest: Decoded): Decoded {
    if rest.Truncated? then Truncated else Decoded(run + rest.bytes, size + rest.used)
  }

  /** The stream starts with a whole run. */
  predicate HasRun(s: seq<u8>) {
    s != [] && s[0] != 0 && if s[0] < 0x80 then |s| >= 2 else |s| >= 1 + (0x100 - s[0] as nat)
  }

  /** A signed count: positive repeats the next byte, negative copies that many. The bytes the first run of
      a stream stands for, and the length of the run. */
  function RunOf(s: seq<u8>): (r: (seq<u8>, nat))
    requires HasRun(s)
    ensures 0 < r.1 <= |s|
  {
    var n := s[0] as nat;
    if n < 0x80 then (Fill(s[1], n), 2) else (s[1..1 + (0x100 - n)], 1 + (0x100 - n))
  }

  /** Runs up to the zero byte. */
  function Decode(s: seq<u8>): (r: Decoded)
    ensures r.Decoded? ==> r.used <= |s|
  {
    if s == [] then Truncated
    else if s[0] == 0 then Decoded([], 1)
    else if !HasRun(s) then Truncated
    else Prepend(RunOf(s).0, RunOf(s).1, Decode(s[RunOf(s).1..]))
  }

  // ---- round trip -------------------------------------------------------------------------------

  lemma {:induction false} SameAreEqual(x: seq<u8>, c: nat, i: nat, k: nat)
    requires c < i <= |x| && i - c <= 127
    requires forall j :: c <= j < i ==> x[j] == x[c]
    requires c <= k < SameEnd(x, c, i)
    ensures x[k] == x[c]
    decreases |x| - i
  {
    if i < |x| && i - c < 127 && x[i] == x[c] { SameAreEqual(x, c, i + 1, k); }
  }

  lemma LiteralDecodes(bytes: seq<u8>, rest: seq<u8>)
    requires 0 < |bytes| <= 127
    ensures LiteralRun(bytes)[0] as nat == 0x100 - |bytes|
    ensures HasRun(LiteralRun(bytes) + rest) && RunOf(LiteralRun(bytes) + rest) == (bytes, 1 + |bytes|)
    ensures (LiteralRun(bytes) + rest)[1 + |bytes|..] == rest
  {
    var s := LiteralRun(bytes) + rest;
    assert s[0] as nat == 0x100 - |bytes|;
    assert s[1..1 + |bytes|] == bytes;
  }

  lemma ReplicateDecodes(value: u8, n: nat, rest: seq<u8>)
    requires 0 < n <= 127
    ensures ReplicateRun(value, n)[0] as nat == n
    ensures HasRun(ReplicateRun(value, n) + rest) && RunOf(ReplicateRun(value, n) + rest) == (Fill(value, n), 2)
    ensures (ReplicateRun(value, n) + rest)[2..] == rest
  {
    var s := ReplicateRun(value, n) + rest;
    assert s[0] as nat == n && s[1] == value;
  }

  /** What any stream stands for: zero closes it, 1 to 127 repeats the next byte, and 0x100 - k, which for k
      from 1 to 128 is a negative count, copies k bytes. */
  lemma StreamForms(v: u8, n: nat, bytes: seq<u8>, rest: seq<u8>)
    requires 1 <= n <= 127 && 1 <= |bytes| <= 128
    ensures Decode([0] + rest) == Decoded([], 1)
    ensures Decode([n as u8, v] + rest) == Prepend(Fill(v, n), 2, Decode(rest))
    ensures Decode([(0x100 - |bytes|) as u8] + bytes + rest) == Prepend(bytes, 1 + |bytes|, Decode(rest))
  {
    hide Decode, HasRun, RunOf, Fill;
    ZeroCloses(rest);
    RepeatDecodes(v, n, rest);
    RunsDecodeFirst([n as u8, v] + rest, Fill(v, n), 2, rest);
    CopyDecodes(bytes, rest);
    RunsDecodeFirst([(0x100 - |bytes|) as u8] + bytes + rest, bytes, 1 + |bytes|, rest);
  }

  lemma RepeatDecodes(v: u8, n: nat, rest: seq<u8>)
    requires 1 <= n <= 127
    ensures var s := [n as u8, v] + rest; HasRun(s) && RunOf(s) == (Fill(v, n), 2) && s[2..] == rest
  {
    hide Fill;
    var s := [n as u8, v] + rest;
    assert s[0] as nat == n && s[1] == v;
  }

  lemma ZeroCloses(rest: seq<u8>)
    ensures Decode([0] + rest) == Decoded([], 1)
  {
  }

  lemma CopyDecodes(bytes: seq<u8>, rest: seq<u8>)
    requires 1 <= |bytes| <= 128
    ensures var s := [(0x100 - |bytes|) as u8] + bytes + rest;
            HasRun(s) && RunOf(s) == (bytes, 1 + |bytes|) && s[1 + |bytes|..] == rest
  {
    var s := [(0x100 - |bytes|) as u8] + bytes + rest;
    assert s[1..1 + |bytes|] == bytes;
  }

  lemma RunsDecodeFirst(s: seq<u8>, bytes: seq<u8>, size: nat, rest: seq<u8>)
    requires HasRun(s) && RunOf(s) == (bytes, size) && s[size..] == rest
    ensures Decode(s) == Prepend(bytes, size, Decode(rest))
  {
  }

  lemma FillIs(x: seq<u8>, c: nat, e: nat, v: u8)
    requires c <= e <= |x| && forall k :: c <= k < e ==> x[k] == v
    ensures Fill(v, e - c) == x[c..e]
  {
  }

  lemma ReplicatedBytes(x: seq<u8>, c: nat)
    requires c < |x|
    ensures Fill(x[c], SameEnd(x, c, c + 1) - c) == x[c..SameEnd(x, c, c + 1)]
  {
    hide SameEnd;
    var e := SameEnd(x, c, c + 1);
    forall k | c <= k < e ensures x[k] == x[c] { SameAreEqual(x, c, c + 1, k); }
    FillIs(x, c, e, x[c]);
  }

  /** A run decodes to the bytes it stands for; its length byte is never zero and never 128. */
  lemma RunRoundTrip(x: seq<u8>, c: nat, rest: seq<u8>)
    requires c < |x|
    ensures EncodeRun(x, c)[0] != 0 && EncodeRun(x, c)[0] != 0x80
    ensures Decode(EncodeRun(x, c) + rest) == Prepend(x[c..RunEnd(x, c)], |EncodeRun(x, c)|, Decode(rest))
  {
    hide SameEnd, LiteralEnd, LiteralRun, ReplicateRun, Decode, HasRun, RunOf, Fill;
    var e := RunEnd(x, c);
    if SameEnd(x, c, c + 1) == c + 1 {
      LiteralDecodes(x[c..e], rest);
    } else {
      ReplicateDecodes(x[c], e - c, rest);
      ReplicatedBytes(x, c);
    }
    RunsDecodeFirst(EncodeRun(x, c) + rest, x[c..e], |EncodeRun(x, c)|, rest);
  }

  lemma {:induction false} RoundTripFrom(x: seq<u8>, c: nat, junk: seq<u8>)
    requires c <= |x|
    ensures Decode(EncodeFrom(x, c) + junk) == Decoded(x[c..], |EncodeFrom(x, c)|)
    decreases |x| - c
  {
    if c == |x| {
      assert x[c..] == [];
    } else {
      var e, run := RunEnd(x, c), EncodeRun(x, c);
      RoundTripFrom(x, e, junk);
      RunRoundTrip(x, c, EncodeFrom(x, e) + junk);
      RoundTripStep(x, c, e, run, EncodeFrom(x, e), junk);
    }
  }

  lemma RoundTripStep(x: seq<u8>, c: nat, e: nat, run: seq<u8>, tail: seq<u8>, junk: seq<u8>)
    requires c < e <= |x|
    requires Decode(run + (tail + junk)) == Prepend(x[c..e], |run|, Decode(tail + junk))
    requires Decode(tail + junk) == Decoded(x[e..], |tail|)
    ensures Decode((run + tail) + junk) == Decoded(x[c..], |run + tail|)
  {
    Associate(run, tail, junk);
    JoinSlices(x, c, e);
  }

  lemma JoinSlices(x: seq<u8>, c: nat, e: nat)
    requires c <= e <= |x|
    ensures x[c..e] + x[e..] == x[c..]
  {
  }

  /** Decoding an encoding gives the bytes back and stops on its last byte, whatever follows. */
  lemma RoundTrip(x: seq<u8>, junk: seq<u8>)
    ensures Decode(Encode(x) + junk) == Decoded(x, |Encode(x)|)
  {
    RoundTripFrom(x, 0, junk);
    assert x[0..] == x;
  }

  // ---- size -------------------------------------------------------------------------------------

  predicate Triple(x: seq<u8>, c: nat) {
    c + 2 < |x| && x[c] == x[c + 1] == x[c + 2]
  }

  lemma {:induction false} LiteralStops(x: seq<u8>, c: nat, i: nat)
    requires c < i <= |x| && i - c <= 127
    requires i == c + 1 ==> i == |x| || x[i] != x[c]
    requires i == c + 2 ==> x[c + 1] != x[c]
    ensures var e := LiteralEnd(x, c, i); e == |x| || e - c == 127 || Triple(x, e)
    decreases |x| - i
  {
    if i < |x| && i - c < 127 && !(x[i] == x[i - 1] && i > 1 && x[i] == x[i - 2]) { LiteralStops(x, c, i + 1); }
  }

  /** A replicate run takes every equal byte there is, up to 127. */
  lemma {:induction false} ReplicateStops(x: seq<u8>, c: nat, i: nat)
    requires c < i <= |x| && i - c <= 127
    ensures var e := SameEnd(x, c, i); e == |x| || e - c == 127 || x[e] != x[c]
    decreases |x| - i
  {
    if i < |x| && i - c < 127 && x[i] == x[c] { ReplicateStops(x, c, i + 1); }
  }

  /** A literal run holds no three equal bytes in a row, and one cut short stops at the first three. */
  lemma {:induction false} LiteralHasNoTriple(x: seq<u8>, c: nat, i: nat, k: nat)
    requires c < i <= |x| && i - c <= 127
    requires i == c + 1 ==> i == |x| || x[i] != x[c]
    requires i == c + 2 ==> x[c + 1] != x[c]
    requires c <= k && (k + 2 < i ==> !Triple(x, k))
    ensures var e := LiteralEnd(x, c, i);
            && (k + 2 < e ==> !Triple(x, k))
            && (k < e < |x| && e - c < 127 ==> !Triple(x, k))
    decreases |x| - i
  {
    if i < |x| && i - c < 127 && !(x[i] == x[i - 1] && i > 1 && x[i] == x[i - 2]) {
      LiteralHasNoTriple(x, c, i + 1, k);
    }
  }

  lemma {:induction false} EqualRunsOn(x: seq<u8>, c: nat, i: nat, v: u8)
    requires c < i <= |x| && i - c <= 127 && forall k :: 0 <= k < |x| ==> x[k] == v
    ensures SameEnd(x, c, i) == if |x| - c < 127 then |x| else c + 127
    decreases |x| - i
  {
    if i < |x| && i - c < 127 { EqualRunsOn(x, c, i + 1, v); }
  }

  lemma ChunkStep(m: nat, k: nat)
    requires 0 < m && k == if m < 127 then m else 127
    ensures 2 + 2 * ((m - k + 126) / 127) == 2 * ((m + 126) / 127)
  {
  }

  lemma EqualRun(x: seq<u8>, c: nat, v: u8)
    requires c < |x| && forall k :: 0 <= k < |x| ==> x[k] == v
    ensures |EncodeRun(x, c)| == 2 && RunEnd(x, c) == if |x| - c < 127 then |x| else c + 127
  {
    hide SameEnd;
    EqualRunsOn(x, c, c + 1, v);
  }

  lemma {:induction false} EqualSizeFrom(x: seq<u8>, c: nat, v: u8)
    requires c <= |x| && forall k :: 0 <= k < |x| ==> x[k] == v
    ensures |EncodeFrom(x, c)| == 2 * ((|x| - c + 126) / 127) + 1
    decreases |x| - c
  {
    hide EncodeRun, RunEnd;
    if c == |x| {
    } else {
      EqualRun(x, c, v);
      ChunkStep(|x| - c, RunEnd(x, c) - c);
      EqualSizeFrom(x, RunEnd(x, c), v);
      OneRunMore(x, c);
    }
  }

  lemma OneRunMore(x: seq<u8>, c: nat)
    requires c < |x|
    ensures |EncodeFrom(x, c)| == |EncodeRun(x, c)| + |EncodeFrom(x, RunEnd(x, c))|
  {
  }

  /** What the encoding is for: n equal bytes shrink to two for every 127 of them, and the closing byte. */
  lemma EqualBytesShrink(n: nat, v: u8)
    ensures |Encode(Fill(v, n))| == 2 * ((n + 126) / 127) + 1
  {
    EqualSizeFrom(Fill(v, n), 0, v);
  }

  /** Room for n bytes, one length byte for every 127 of them, and the closing byte. */
  function SizeBound(n: nat): nat {
    n + (n + 126) / 127 + 1
  }

  lemma BoundStep(m: nat, k: nat)
    requires 0 < k <= m
    ensures SizeBound(m - k) + k <= SizeBound(m)
    ensures k == 127 ==> SizeBound(m - k) + k + 1 == SizeBound(m)
    ensures SizeBound(m) >= m + 2
  {
  }

  lemma TripleRepeats(x: seq<u8>, c: nat)
    requires Triple(x, c)
    ensures SameEnd(x, c, c + 1) >= c + 3
  {
    assert SameEnd(x, c, c + 1) == SameEnd(x, c, c + 2);
  }

  /** The length byte of a literal run cut short is paid for by the three equal bytes that cut it. */
  lemma {:induction false} SizeFrom(x: seq<u8>, c: nat)
    requires c <= |x|
    ensures |EncodeFrom(x, c)| <= SizeBound(|x| - c) - (if Triple(x, c) then 1 else 0)
    decreases |x| - c
  {
    if c < |x| {
      var e := RunEnd(x, c);
      SizeFrom(x, e);
      BoundStep(|x| - c, e - c);
      if Triple(x, c) {
        TripleRepeats(x, c);
      } else if SameEnd(x, c, c + 1) == c + 1 {
        LiteralStops(x, c, c + 1);
      }
    }
  }

  lemma EncodedSize(x: seq<u8>)
    ensures 1 <= |Encode(x)| <= SizeBound(|x|)
  {
    SizeFrom(x, 0);
  }

  /** The bound is reached at every length, by bytes no two neighbours of which are equal. */
  lemma {:induction false} SizeReachedFrom(x: seq<u8>, c: nat)
    requires c <= |x|
    requires forall i :: 0 < i < |x| ==> x[i] != x[i - 1]
    ensures |EncodeFrom(x, c)| == SizeBound(|x| - c)
    decreases |x| - c
  {
    if c < |x| {
      LiteralRunsOn(x, c, c + 1);
      BoundStep(|x| - c, RunEnd(x, c) - c);
      SizeReachedFrom(x, RunEnd(x, c));
    }
  }

  lemma {:induction false} LiteralRunsOn(x: seq<u8>, c: nat, i: nat)
    requires c < i <= |x| && i - c <= 127
    requires forall i :: 0 < i < |x| ==> x[i] != x[i - 1]
    ensures LiteralEnd(x, c, i) == if |x| - c < 127 then |x| else c + 127
    decreases |x| - i
  {
    if i < |x| && i - c < 127 { LiteralRunsOn(x, c, i + 1); }
  }

  function Alternating(n: nat): (x: seq<u8>)
    ensures |x| == n && forall i :: 0 < i < n ==> x[i] != x[i - 1]
  {
    if n == 0 then []
    else
      var p := Alternating(n - 1);
      p + [if n > 1 && p[n - 2] == 0 then 1 else 0]
  }

  lemma SizeBoundIsReached(n: nat)
    ensures exists x: seq<u8> :: |x| == n && |Encode(x)| == SizeBound(n)
  {
    var x := Alternating(n);
    SizeReachedFrom(x, 0);
    assert |Encode(x)| == SizeBound(n);
  }

  // ---- the two routines -------------------------------------------------------------------------

  /** Scans for equal bytes, and failing that for the end of a literal run, with a step back. */
  method FindRunEnd(input: array<u8>, len: nat, count: nat) returns (index: nat, replicate: bool)
    requires count < len <= input.Length
    ensures index == RunEnd(input[..len], count)
    ensures replicate <==> SameEnd(input[..len], count, count + 1) != count + 1
  {
    ghost var x := input[..len];
    index := count;
    var first := input[index];
    index := index + 1;
    while index < len && index - count < 127 && input[index] == first
      invariant count < index <= len && index - count <= 127
      invariant SameEnd(x, count, index) == SameEnd(x, count, count + 1)
    {
      index := index + 1;
    }
    replicate := index - count != 1;
    if !replicate {
      while index < len && index - count < 127
        invariant count < index <= len && index - count <= 127
        invariant index == count + 1 ==> index == len || x[index] != x[count]
        invariant index == count + 2 ==> x[count + 1] != x[count]
        invariant LiteralEnd(x, count, index) == LiteralEnd(x, count, count + 1)
      {
        if input[index] == input[index - 1] && index > 1 && input[index] == input[index - 2] {
          index := index - 2;
          assert index == LiteralEnd(x, count, count + 1);
          break;
        }
        index := index + 1;
      }
    }
  }

  /** `now` is `was` with the bytes from `at` on replaced by `b`. */
  ghost predicate Overwritten(now: seq<u8>, was: seq<u8>, at: nat, b: seq<u8>) {
    && |now| == |was| && at + |b| <= |was|
    && (forall k :: 0 <= k < |was| ==> now[k] == if at <= k < at + |b| then b[k - at] else was[k])
  }

  lemma OverwrittenSlices(now: seq<u8>, was: seq<u8>, at: nat, b: seq<u8>)
    requires Overwritten(now, was, at, b)
    ensures now[..at + |b|] == was[..at] + b
    ensures now[at + |b|..] == was[at + |b|..]
  {
  }

  lemma OverwrittenTwice(now: seq<u8>, mid: seq<u8>, was: seq<u8>, at: nat, a: seq<u8>, b: seq<u8>)
    requires Overwritten(mid, was, at, a) && Overwritten(now, mid, at + |a|, b)
    ensures Overwritten(now, was, at, a + b)
  {
  }

  method Put(output: array<u8>, at: nat, input: array<u8>, from: nat, n: nat)
    requires output != input && from + n <= input.Length && at + n <= output.Length
    modifies output
    ensures Overwritten(output[..], old(output[..]), at, input[from..from + n])
  {
    for i := 0 to n
      invariant Overwritten(output[..], old(output[..]), at, input[from..from + i])
    {
      output[at + i] := input[from + i];
    }
  }

  method Repeat(output: array<u8>, at: nat, value: u8, n: nat)
    requires at + n <= output.Length
    modifies output
    ensures Overwritten(output[..], old(output[..]), at, Fill(value, n))
  {
    for i := 0 to n
      invariant Overwritten(output[..], old(output[..]), at, Fill(value, i))
    {
      output[at + i] := value;
    }
  }

  method EmitLiteral(output: array<u8>, out: nat, input: array<u8>, count: nat, index: nat)
    requires output != input && count < index <= input.Length && index - count <= 127
    requires out + 1 + (index - count) <= output.Length
    modifies output
    ensures Overwritten(output[..], old(output[..]), out, LiteralRun(input[count..index]))
  {
    output[out] := Cast8(0x100 - (index - count));
    ghost var mid := output[..];
    Put(output, out + 1, input, count, index - count);
    ghost var bytes := input[count..count + (index - count)];
    assert bytes == input[count..index];
    OverwrittenTwice(output[..], mid, old(output[..]), out, [Cast8(0x100 - (index - count))], bytes);
  }

  lemma SliceOfSlice(s: seq<u8>, n: nat, a: nat, b: nat)
    requires a <= b <= n <= |s|
    ensures s[..n][a..b] == s[a..b]
  {
  }

  /** Encodes the run at `count` to `output[out..]`. */
  method EmitRun(output: array<u8>, out: nat, input: array<u8>, len: nat, count: nat) returns (index: nat, end: nat)
    requires output != input && count < len <= input.Length
    requires out + |EncodeRun(input[..len], count)| <= output.Length
    modifies output
    ensures index == RunEnd(input[..len], count)
    ensures end == out + |EncodeRun(input[..len], count)|
    ensures Overwritten(output[..], old(output[..]), out, EncodeRun(input[..len], count))
  {
    var replicate;
    index, replicate := FindRunEnd(input, len, count);
    if replicate {
      output[out] := (index - count) as u8;
      output[out + 1] := input[count];
      end := out + 2;
    } else {
      SliceOfSlice(input[..], len, count, index);
      EmitLiteral(output, out, input, count, index);
      end := out + 1 + (index - count);
    }
  }

  lemma Regroup(a: seq<u8>, x: seq<u8>, c: nat)
    requires c < |x|
    ensures a + EncodeFrom(x, c) == (a + EncodeRun(x, c)) + EncodeFrom(x, RunEnd(x, c))
  {
  }

  method Rle(output: array<u8>, input: array<u8>, len: nat) returns (size: nat)
    requires output != input && len <= input.Length && |Encode(input[..len])| <= output.Length
    modifies output
    ensures size <= output.Length && output[..size] == Encode(input[..len])
    ensures size <= SizeBound(len)
    ensures forall k :: size <= k < output.Length ==> output[k] == old(output[k])
  {
    ghost var x := input[..len];
    EncodedSize(x);
    var out, count := 0, 0;
    while count < len
      invariant 0 <= count <= len && 0 <= out <= output.Length
      invariant output[..out] + EncodeFrom(x, count) == Encode(x)
      invariant forall k :: out <= k < output.Length ==> output[k] == old(output[k])
      decreases len - count
    {
      ghost var was := output[..];
      Regroup(was[..out], x, count);
      assert |was[..out] + EncodeRun(x, count)| <= |Encode(x)|;
      var index, end := EmitRun(output, out, input, len, count);
      OverwrittenSlices(output[..], was, out, EncodeRun(x, count));
      assert output[..end] == was[..out] + EncodeRun(x, count);
      out, count := end, index;
    }
    output[out] := 0;
    size := out + 1;
  }

  /** The C conversion to signed char. */
  function Signed(b: u8): (n: int)
    ensures -0x80 <= n < 0x80
  {
    if b < 0x80 then b as int else b as int - 0x100
  }

  /** Decodes the run at `inp` to `output[out..]`; there is none at the closing byte. */
  method CopyRun(output: array<u8>, out: nat, input: array<u8>, inp: nat) returns (inp': nat, out': nat)
    requires output != input && inp < input.Length && input[inp] != 0
    requires Decode(input[inp..]).Decoded? && out + |Decode(input[inp..]).bytes| <= output.Length
    modifies output
    ensures inp < inp' <= input.Length && out <= out' <= output.Length
    ensures Decode(input[inp'..]).Decoded?
    ensures output[..out'] + Decode(input[inp'..]).bytes == old(output[..out]) + Decode(input[inp..]).bytes
    ensures forall k :: out' <= k < output.Length ==> output[k] == old(output[k])
  {
    ghost var s, was := input[inp..], output[..];
    assert HasRun(s);
    ghost var (run, size) := RunOf(s);
    var count := Signed(input[inp]);
    if count > 0 {
      Repeat(output, out, input[inp + 1], count);
      inp', out' := inp + 2, out + count;
    } else {
      Put(output, out, input, inp + 1, -count);
      assert input[inp + 1..inp + 1 + -count] == run;
      inp', out' := inp + 1 - count, out - count;
    }
    OverwrittenSlices(output[..], was, out, run);
    assert output[..out'] == was[..out] + run;
    assert input[inp'..] == s[size..];
    Associate(was[..out], run, Decode(s[size..]).bytes);
  }

  /** Needs room for what the stream stands for, and a stream that is not cut short. */
  method Unrle(output: array<u8>, input: array<u8>) returns (size: nat)
    requires output != input && Decode(input[..]).Decoded?
    requires |Decode(input[..]).bytes| <= output.Length
    modifies output
    ensures size <= output.Length && output[..size] == Decode(input[..]).bytes
    ensures forall k :: size <= k < output.Length ==> output[k] == old(output[k])
  {
    var inp, out := 0, 0;
    ghost var all := Decode(input[..]);
    assert input[0..] == input[..];
    while input[inp] != 0
      invariant 0 <= inp < input.Length && 0 <= out <= output.Length
      invariant Decode(input[inp..]).Decoded?
      invariant output[..out] + Decode(input[inp..]).bytes == all.bytes
      invariant forall k :: out <= k < output.Length ==> output[k] == old(output[k])
      decreases input.Length - inp
    {
      inp, out := CopyRun(output, out, input, inp);
    }
    size := out;
  }
}
