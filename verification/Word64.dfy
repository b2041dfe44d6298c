/** A uint64 used as a set of bits: element i of the sequence is the bit of weight 2^i. */
module Word64 {
  type Word = w: seq<bool> | |w| == 64 witness seq(64, i => false)

  function Zero(): Word { seq(64, i => false) }
  function One(): Word { seq(64, i => i == 0) }
  function All(): Word { seq(64, i => true) }

  /** Go's `<<`: a count of 64 or more shifts every bit out. */
  function Shl(w: Word, count: nat): Word {
    seq(64, i requires 0 <= i < 64 => i >= count && w[i - count])
  }

  function And(a: Word, b: Word): Word { seq(64, i requires 0 <= i < 64 => a[i] && b[i]) }
  function Or(a: Word, b: Word): Word { seq(64, i requires 0 <= i < 64 => a[i] || b[i]) }
  function Not(a: Word): Word { seq(64, i requires 0 <= i < 64 => !a[i]) }

  /** Bit i of w. */
  predicate Test(w: Word, i: nat) {
    i < 64 && w[i]
  }

  /** The source reads a bit as `1<<uint(i)&w != 0`. */
  lemma MaskedTestReadsBit(w: Word, i: nat)
    ensures And(Shl(One(), i), w) != Zero() <==> Test(w, i)
  {
    var masked := And(Shl(One(), i), w);
    if Test(w, i) {
      assert masked[i];
    } else {
      assert masked == Zero();
    }
  }

  /** The low n bits of x, least significant first. */
  function Bits(x: nat, n: nat): (w: seq<bool>)
    ensures |w| == n
  {
    if n == 0 then [] else [x % 2 == 1] + Bits(x / 2, n - 1)
  }

  function Pow2(n: nat): (p: nat)
    ensures 1 <= p
  {
    if n == 0 then 1 else 2 * Pow2(n - 1)
  }

  lemma OnesEndInOne(n: nat)
    requires n > 0
    ensures (Pow2(n) - 1) % 2 == 1 && (Pow2(n) - 1) / 2 == Pow2(n - 1) - 1
  {
    var half := Pow2(n - 1);
    assert Pow2(n) - 1 == 2 * (half - 1) + 1;
  }

  lemma {:induction false} BitsOfOnes(ones: nat, zeros: nat, w: seq<bool>)
    requires w == Bits(Pow2(ones) - 1, ones + zeros)
    ensures forall i | 0 <= i < |w| :: w[i] <==> i < ones
  {
    if ones > 0 {
      OnesEndInOne(ones);
      assert w == [true] + w[1..];
      BitsOfOnes(ones - 1, zeros, w[1..]);
    } else if zeros > 0 {
      assert w == [false] + w[1..];
      BitsOfOnes(0, zeros - 1, w[1..]);
    }
  }
}
