/** The proof-of-work test of the front end (`generateHashcash`): leading zero bits of a digest,
    counted byte by byte, against the digest read as one big-endian integer. */
module Hashcash {
  import opened Options

  type Byte = b: int | 0 <= b < 256

  function Pow2(n: nat): (p: nat)
    ensures p >= 1
  {
    if n == 0 then 1 else 2 * Pow2(n - 1)
  }

  /** The digest as a big-endian integer. */
  function Value(digest: seq<Byte>): nat {
    if digest == [] then 0
    else 256 * Value(digest[..|digest| - 1]) + digest[|digest| - 1]
  }

  lemma {:induction false} Pow2Add(m: nat, n: nat)
    ensures Pow2(m + n) == Pow2(m) * Pow2(n)
  {
    if m > 0 {
      Pow2Add(m - 1, n);
      assert 2 * (Pow2(m - 1) * Pow2(n)) == (2 * Pow2(m - 1)) * Pow2(n);
    }
  }

  lemma {:induction false} Pow2Monotone(m: nat, n: nat)
    requires m <= n
    ensures Pow2(m) <= Pow2(n)
  {
    if m < n {
      Pow2Monotone(m, n - 1);
    }
  }

  lemma Pow2Eight(n: nat)
    ensures Pow2(n + 8) == 256 * Pow2(n)
  {
    assert Pow2(n + 8) == 2 * Pow2(n + 7) == 4 * Pow2(n + 6) == 8 * Pow2(n + 5);
    assert Pow2(n + 5) == 2 * Pow2(n + 4) == 4 * Pow2(n + 3) == 8 * Pow2(n + 2) == 32 * Pow2(n);
  }

  lemma Regroup(head: nat, unit: nat, rest: nat, last: nat)
    ensures 256 * (head * unit + rest) + last == head * (256 * unit) + (256 * rest + last)
  {
    assert 256 * (head * unit) == head * (256 * unit);
  }

  /** Reading the first byte last: the head weighs 256 to the number of the others. */
  lemma {:induction false} ValueHead(digest: seq<Byte>)
    requires digest != []
    ensures Value(digest) == digest[0] * Pow2(8 * (|digest| - 1)) + Value(digest[1..])
    ensures Value(digest[1..]) < Pow2(8 * (|digest| - 1))
  {
    var n := |digest|;
    if n == 1 {
      assert digest[..0] == [] && digest[1..] == [];
    } else {
      var init, last := digest[..n - 1], digest[n - 1];
      var unit := Pow2(8 * (n - 2));
      ValueHead(init);
      assert digest[1..][..n - 2] == init[1..];
      assert 8 * (n - 1) == 8 * (n - 2) + 8;
      Pow2Eight(8 * (n - 2));
      Regroup(digest[0], unit, Value(init[1..]), last);
    }
  }

  /** `z` leading zero bits in `8 * n` bits: the value fits in the remaining ones and needs them all. */
  ghost predicate HasLeadingZeros(value: nat, width: nat, z: nat) {
    && z <= width && value < Pow2(width - z)
    && (z < width ==> Pow2(width - z - 1) <= value)
  }

  /** What a count of leading zeros says about a threshold. */
  lemma ThresholdIff(value: nat, width: nat, z: nat, bits: nat)
    requires HasLeadingZeros(value, width, z) && bits <= width
    ensures z >= bits <==> value < Pow2(width - bits)
  {
    if z >= bits {
      Pow2Monotone(width - z, width - bits);
    } else {
      Pow2Monotone(width - bits, width - z - 1);
    }
  }

  /** The digest whose first `k` bytes are zero has the value of the rest. */
  lemma {:induction false} SkipZeroBytes(digest: seq<Byte>, k: nat)
    requires k <= |digest| && forall i :: 0 <= i < k ==> digest[i] == 0
    ensures Value(digest) == Value(digest[k..])
    decreases k
  {
    if k == 0 {
      assert digest[0..] == digest;
    } else {
      ValueHead(digest);
      SkipZeroBytes(digest[1..], k - 1);
      assert digest[1..][k - 1..] == digest[k..];
    }
  }

  lemma SmallPowers()
    ensures Pow2(0) == 1 && Pow2(1) == 2 && Pow2(2) == 4 && Pow2(3) == 8 && Pow2(4) == 16
    ensures Pow2(5) == 32 && Pow2(6) == 64 && Pow2(7) == 128 && Pow2(8) == 256
  {
    assert Pow2(3) == 2 * Pow2(2) && Pow2(6) == 2 * Pow2(5);
  }

  /** A byte that `s` shifts bring into [128, 256) lies between two powers of two. */
  lemma ByteRange(b: Byte, s: nat)
    requires s < 8 && 128 <= b * Pow2(s) < 256
    ensures Pow2(7 - s) <= b && b + 1 <= Pow2(8 - s)
  {
    SmallPowers();
  }

  lemma Sandwich(b: nat, rest: nat, unit: nat, low: nat, high: nat)
    requires low <= b && b + 1 <= high && rest < unit
    ensures low * unit <= b * unit + rest < high * unit
  {
    assert low * unit <= b * unit;
    assert b * unit + unit == (b + 1) * unit <= high * unit;
  }

  /** A head between two powers of two, with `width` bits behind it, makes a number between the powers of two
      that lie `width` higher. */
  lemma {:induction false} HeadBounds(b: nat, rest: nat, width: nat, s: nat)
    requires s < 8 && Pow2(7 - s) <= b && b + 1 <= Pow2(8 - s) && rest < Pow2(width)
    ensures Pow2((7 - s) + width) <= b * Pow2(width) + rest < Pow2((8 - s) + width)
  {
    Pow2Add(8 - s, width);
    Pow2Add(7 - s, width);
    Sandwich(b, rest, Pow2(width), Pow2(7 - s), Pow2(8 - s));
  }

  lemma {:induction false} LeadingZerosFrom(value: nat, width: nat, s: nat)
    requires s < 8 && Pow2((7 - s) + width) <= value < Pow2((8 - s) + width)
    ensures HasLeadingZeros(value, 8 + width, s)
  {
    assert 8 + width - s == (8 - s) + width;
    assert 8 + width - s - 1 == (7 - s) + width;
  }

  /** A first byte that `s` shifts bring into [128, 256) gives the digest `s` leading zeros. */
  lemma {:induction false} FirstByteZeros(digest: seq<Byte>, s: nat)
    requires digest != [] && s < 8 && 128 <= digest[0] * Pow2(s) < 256
    ensures HasLeadingZeros(Value(digest), 8 * |digest|, s)
  {
    var width := 8 * (|digest| - 1);
    ByteRange(digest[0], s);
    ValueHead(digest);
    HeadBounds(digest[0], Value(digest[1..]), width, s);
    LeadingZerosFrom(Value(digest), width, s);
    assert 8 * |digest| == 8 + width;
  }

  lemma ShiftOnce(b: Byte, s: nat)
    requires s < 8 && 0 < b * Pow2(s) < 128
    ensures s < 7 && b * Pow2(s + 1) == 2 * (b * Pow2(s))
  {
    SmallPowers();
  }

  /** The inner loops of the source: add eight per zero byte, then shift the first non-zero byte left
      until its top bit is set. */
  method LeadingZeroBits(digest: seq<Byte>) returns (zeroBits: nat)
    ensures HasLeadingZeros(Value(digest), 8 * |digest|, zeroBits)
  {
    zeroBits := 0;
    for k := 0 to |digest|
      invariant zeroBits == 8 * k
      invariant forall i :: 0 <= i < k ==> digest[i] == 0
    {
      if digest[k] == 0 {
        zeroBits := zeroBits + 8;
      } else {
        var b: nat := digest[k];
        ghost var s := 0;
        while (b / 128) % 2 == 0
          invariant 0 < b < 256 && s < 8 && b == digest[k] * Pow2(s)
          invariant zeroBits == 8 * k + s
          decreases 256 - b
        {
          ShiftOnce(digest[k], s);
          zeroBits := zeroBits + 1;
          b := b * 2;
          s := s + 1;
        }
        SkipZeroBytes(digest, k);
        FirstByteZeros(digest[k..], s);
        assert 8 * |digest| - zeroBits == 8 * |digest[k..]| - s;
        return;
      }
    }
    SkipZeroBytes(digest, |digest|);
  }

  /** The test of a stamp: it passes exactly when its digest, as an integer, is below the target. */
  method Passes(digest: seq<Byte>, bits: nat) returns (ok: bool)
    ensures ok <==> bits <= 8 * |digest| && Value(digest) < Pow2(8 * |digest| - bits)
  {
    var zeroBits := LeadingZeroBits(digest);
    if bits <= 8 * |digest| {
      ThresholdIff(Value(digest), 8 * |digest|, zeroBits, bits);
    }
    ok := zeroBits >= bits;
  }

  const BATCH: nat := 256
  const DEFAULT_BITS: nat := 18

  /** No number of bits, or zero, stands for the default. */
  function Wanted(bits: nat): nat {
    if bits == 0 then DEFAULT_BITS else bits
  }

  ghost predicate Solves(digestOf: nat -> seq<Byte>, bits: nat, counter: nat) {
    var digest := digestOf(counter);
    bits <= 8 * |digest| && Value(digest) < Pow2(8 * |digest| - bits)
  }

  /** What was found is the least counter that solves the puzzle; where nothing was, none below `limit` does. */
  ghost predicate LeastSolution(digestOf: nat -> seq<Byte>, bits: nat, limit: nat, found: Option<nat>) {
    && (found.Some? ==> found.value < limit && Solves(digestOf, bits, found.value))
    && forall c: nat :: c < (if found.Some? then found.value else limit) ==> !Solves(digestOf, bits, c)
  }

  /** The search over counters, one batch of digests a round.  It ends in the round of the least counter that
      solves the puzzle, with that counter, and is still going after any number of rounds if there is none. */
  method Mine(digestOf: nat -> seq<Byte>, bits: nat, rounds: nat) returns (found: Option<nat>)
    ensures bits > 0 ==> LeastSolution(digestOf, bits, 256 * rounds, found)
    ensures bits == 0 ==> LeastSolution(digestOf, 18, 256 * rounds, found)
  {
    var wanted := Wanted(bits);
    var counter := 0;
    for round := 0 to rounds
      invariant counter == BATCH * round
      invariant forall c: nat :: c < counter ==> !Solves(digestOf, wanted, c)
    {
      var hashes := seq(BATCH, i requires 0 <= i => digestOf(counter + i));
      for j := 0 to BATCH
        invariant forall c: nat :: c < counter + j ==> !Solves(digestOf, wanted, c)
      {
        var ok := Passes(hashes[j], wanted);
        if ok {
          assert BATCH * round + BATCH <= BATCH * rounds;
          return Some(counter + j);
        }
      }
      counter := counter + BATCH;
    }
    return None;
  }
}
