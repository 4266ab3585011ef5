/** Does an address lie in a network? The comparison by words and masks, on words as the processor
    loads them, against the definition: the first `bits` bits agree. */
module CidrMatch {
  import opened Bytes

  // ----- Bits of a byte string, in network order ------------------------------------

  /** A byte shifted right by `n`. */
  function Shifted(b: byte, n: nat): byte {
    if n == 0 then b else Shifted(b, n - 1) / 2
  }

  /** Bit `j` of a byte, the highest first. */
  predicate Bit(b: byte, j: nat)
    requires j < 8
  {
    Shifted(b, 7 - j) % 2 == 1
  }

  predicate BitAt(s: seq<byte>, i: nat)
    requires i < 8 * |s|
  {
    Bit(s[i / 8], i % 8)
  }

  ghost predicate Agree(a: seq<byte>, b: seq<byte>, bits: nat)
    requires bits <= 8 * |a| && bits <= 8 * |b|
  {
    forall i :: 0 <= i < bits ==> BitAt(a, i) == BitAt(b, i)
  }

  ghost predicate SameIn(a: seq<byte>, b: seq<byte>, from: nat, to: nat)
    requires to <= 8 * |a| && to <= 8 * |b|
  {
    forall i :: from <= i < to ==> BitAt(a, i) == BitAt(b, i)
  }

  lemma NothingLeft(b: byte)
    ensures Shifted(b, 8) == 0
  {
    assert Shifted(b, 2) <= 63;
    assert Shifted(b, 4) <= 15;
    assert Shifted(b, 6) <= 3;
  }

  lemma {:induction false} SameShifted(a: byte, b: byte, n: nat)
    requires n <= 8 && forall j :: 0 <= j < 8 ==> Bit(a, j) == Bit(b, j)
    ensures Shifted(a, n) == Shifted(b, n)
    decreases 8 - n
  {
    if n == 8 {
      NothingLeft(a);
      NothingLeft(b);
    } else {
      SameShifted(a, b, n + 1);
      assert Bit(a, 7 - n) == Bit(b, 7 - n);
    }
  }

  /** Equal bytes and equal bits are the same thing. */
  lemma BytesAreBits(a: seq<byte>, b: seq<byte>, n: nat)
    requires n <= |a| && n <= |b|
    ensures a[..n] == b[..n] <==> Agree(a, b, 8 * n)
  {
    if Agree(a, b, 8 * n) {
      forall k | 0 <= k < n
        ensures a[k] == b[k]
      {
        forall j | 0 <= j < 8
          ensures Bit(a[k], j) == Bit(b[k], j)
        {
          assert BitAt(a, 8 * k + j) == BitAt(b, 8 * k + j);
        }
        SameShifted(a[k], b[k], 0);
      }
    } else {
      var i :| 0 <= i < 8 * n && BitAt(a, i) != BitAt(b, i);
      assert a[..n][i / 8] != b[..n][i / 8];
    }
  }

  // ----- 32-bit words ---------------------------------------------------------------

  /** A machine word as its bits, the highest first. */
  type Word = w: seq<bool> | |w| == 32 witness seq(32, _ => false)

  function Zero(): Word {
    seq(32, _ => false)
  }

  function Xor(a: Word, b: Word): Word {
    seq(32, i requires 0 <= i < 32 => a[i] != b[i])
  }

  function And(a: Word, b: Word): Word {
    seq(32, i requires 0 <= i < 32 => a[i] && b[i])
  }

  /** 0xFFFFFFFF shifted left. */
  function OnesShifted(shift: nat): Word {
    seq(32, i => i < 32 - shift)
  }

  /** The place in network order of bit `j` of a loaded word. */
  function Place(j: nat, little: bool): (p: nat)
    requires j < 32
    ensures p < 32
    ensures if little then j == 8 * (3 - p / 8) + p % 8 else j == p
  {
    if little then 8 * (3 - j / 8) + j % 8 else j
  }

  /** Word `k` of a byte string in memory: on a little-endian machine the first byte is the lowest. */
  function Load(s: seq<byte>, k: nat, little: bool): Word
    requires 4 * k + 4 <= |s|
  {
    seq(32, j requires 0 <= j < 32 => Bit(s[4 * k + if little then 3 - j / 8 else j / 8], j % 8))
  }

  function Htonl(w: Word, little: bool): Word {
    if little then w[24..] + w[16..24] + w[8..16] + w[..8] else w
  }

  lemma LoadPlaces(s: seq<byte>, k: nat, little: bool, j: nat)
    requires 4 * k + 4 <= |s| && j < 32
    ensures Load(s, k, little)[j] == BitAt(s, 32 * k + Place(j, little))
  {
    var p := Place(j, little);
    assert (32 * k + p) / 8 == 4 * k + p / 8 && (32 * k + p) % 8 == p % 8;
  }

  lemma HtonlPlaces(w: Word, little: bool, j: nat)
    requires j < 32
    ensures Htonl(w, little)[j] == w[Place(j, little)]
  {}

  /** One masked word compares the first bits of that word, on either kind of machine. */
  lemma MaskedWord(a: seq<byte>, n: seq<byte>, k: nat, rest: nat, little: bool)
    requires 4 * k + 4 <= |a| && 4 * k + 4 <= |n| && rest <= 32
    ensures And(Xor(Load(a, k, little), Load(n, k, little)), Htonl(OnesShifted(32 - rest), little)) == Zero()
            <==> SameIn(a, n, 32 * k, 32 * k + rest)
  {
    hide Load, Htonl, BitAt, Bit, Shifted;
    var w := And(Xor(Load(a, k, little), Load(n, k, little)), Htonl(OnesShifted(32 - rest), little));
    forall j | 0 <= j < 32
      ensures w[j] <==> Place(j, little) < rest && BitAt(a, 32 * k + Place(j, little)) != BitAt(n, 32 * k + Place(j, little))
    {
      LoadPlaces(a, k, little, j);
      LoadPlaces(n, k, little, j);
      HtonlPlaces(OnesShifted(32 - rest), little, j);
    }
    if w == Zero() {
      forall i | 32 * k <= i < 32 * k + rest
        ensures BitAt(a, i) == BitAt(n, i)
      {
        var j := Place(i - 32 * k, little);
        assert Place(j, little) == i - 32 * k && w[j] == Zero()[j];
      }
    } else {
      var j :| 0 <= j < 32 && w[j] != Zero()[j];
      var i := 32 * k + Place(j, little);
      assert i < 32 * k + rest && BitAt(a, i) != BitAt(n, i);
    }
  }

  // ----- The comparisons ------------------------------------------------------------

  predicate Match6(a: seq<byte>, n: seq<byte>, bits: nat, little: bool)
    requires |a| == 16 && |n| == 16 && bits <= 128
  {
    var whole, rest := bits / 32, bits % 32;
    && (whole == 0 || a[..4 * whole] == n[..4 * whole])
    && (rest == 0
        || And(Xor(Load(a, whole, little), Load(n, whole, little)), Htonl(OnesShifted(32 - rest), little)) == Zero())
  }

  predicate Match4(a: seq<byte>, n: seq<byte>, bits: nat, little: bool)
    requires |a| == 4 && |n| == 4 && bits <= 32
  {
    Masked4(a, bits, little) == Load(n, 0, little)
  }

  function Masked4(a: seq<byte>, bits: nat, little: bool): Word
    requires |a| == 4 && bits <= 32
  {
    if bits == 0 then Zero() else And(Load(a, 0, little), Htonl(OnesShifted(32 - bits), little))
  }

  /** The IPv6 test is the bit-prefix test, for every prefix length. */
  lemma Match6IsPrefixTest(a: seq<byte>, n: seq<byte>, bits: nat, little: bool)
    requires |a| == 16 && |n| == 16 && bits <= 128
    ensures Match6(a, n, bits, little) <==> Agree(a, n, bits)
  {
    var whole, rest := bits / 32, bits % 32;
    BytesAreBits(a, n, 4 * whole);
    if rest != 0 {
      MaskedWord(a, n, whole, rest, little);
    }
    assert Agree(a, n, bits) <==> Agree(a, n, 32 * whole) && SameIn(a, n, 32 * whole, bits);
  }

  /** It never depends on what stands behind the bytes that hold the prefix, which the parser does not
      write. */
  lemma RestIsIgnored(a: seq<byte>, prefix: seq<byte>, r1: seq<byte>, r2: seq<byte>, bits: nat, little: bool)
    requires |a| == 16 && bits <= 128 && |prefix| == (bits + 7) / 8 && |r1| == |r2| == 16 - |prefix|
    ensures Match6(a, prefix + r1, bits, little) <==> Match6(a, prefix + r2, bits, little)
    ensures Match6(a, prefix + r1, bits, little) <==> Agree(a, prefix, bits)
  {
    Match6IsPrefixTest(a, prefix + r1, bits, little);
    Match6IsPrefixTest(a, prefix + r2, bits, little);
    assert forall i :: 0 <= i < bits ==> i / 8 < |prefix| && BitAt(prefix + r1, i) == BitAt(prefix, i) == BitAt(prefix + r2, i);
  }

  /** The IPv4 test asks more: that the network's own host bits are zero. */
  lemma Match4IsPrefixTest(a: seq<byte>, n: seq<byte>, bits: nat, little: bool)
    requires |a| == 4 && |n| == 4 && bits <= 32
    ensures Match4(a, n, bits, little) <==> Agree(a, n, bits) && forall i :: bits <= i < 32 ==> !BitAt(n, i)
  {
    hide Load, Htonl, BitAt, Bit, Shifted;
    var masked := Masked4(a, bits, little);
    var word := Load(n, 0, little);
    forall j | 0 <= j < 32
      ensures masked[j] <==> Place(j, little) < bits && BitAt(a, Place(j, little))
      ensures word[j] == BitAt(n, Place(j, little))
    {
      LoadPlaces(a, 0, little, j);
      LoadPlaces(n, 0, little, j);
      HtonlPlaces(OnesShifted(32 - bits), little, j);
    }
    if masked == word {
      forall i | 0 <= i < 32
        ensures i < bits ==> BitAt(a, i) == BitAt(n, i)
        ensures i >= bits ==> !BitAt(n, i)
      {
        var j := Place(i, little);
        assert Place(j, little) == i && masked[j] == word[j];
      }
    } else {
      var j :| 0 <= j < 32 && masked[j] != word[j];
      var i := Place(j, little);
      assert if i < bits then BitAt(a, i) != BitAt(n, i) else BitAt(n, i);
    }
  }
}
