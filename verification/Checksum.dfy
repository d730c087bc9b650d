/**
 The Internet checksum of section 1 of RFC 1071, as `internet_checksum` computes it:
 add the 16-bit words, fold the carries back in, complement.
 */
module Checksum {
  import opened Bytes

  /** Sum of the network-order 16-bit words of `s`; an odd last byte is padded with a zero byte. */
  function WordSum(s: seq<byte>): nat {
    if s == [] then 0
    else if |s| == 1 then Word(s[0], 0)
    else Word(s[0], s[1]) + WordSum(s[2..])
  }

  /** The one's-complement value of a sum: 0xFFFF taken out until 16 bits hold the rest. */
  function Fold(n: nat): u16 {
    if n <= 0xFFFF then n else Fold(n - 0xFFFF)
  }

  function Complement(w: u16): u16 { 0xFFFF - w }

  function Internet(s: seq<byte>): u16 {
    Complement(Fold(WordSum(s)))
  }

  /** The receiver's test: all words, checksum included, add up to all ones. */
  ghost predicate Verifies(s: seq<byte>) {
    Fold(WordSum(s)) == 0xFFFF
  }

  lemma {:induction false} FoldMultiple(n: nat, k: nat)
    requires n != 0
    ensures Fold(n + 0xFFFF * k) == Fold(n)
  {
    if k == 0 {
    } else {
      FoldMultiple(n, k - 1);
    }
  }

  /** One round of the script's carry loop keeps the folded value. */
  lemma FoldStep(n: nat)
    ensures Fold(n) == Fold(n / 0x1_0000 + n % 0x1_0000)
  {
    var q, r := n / 0x1_0000, n % 0x1_0000;
    assert n == q + r + 0xFFFF * q;
    if n == 0 {
    } else {
      FoldMultiple(q + r, q);
    }
  }

  lemma ModAddMultiple(x: int, k: int)
    ensures (x + 0xFFFF * k) % 0xFFFF == x % 0xFFFF
  {
  }

  /** Folding keeps the sum modulo 0xFFFF and maps only the zero sum to zero. */
  lemma {:induction false} FoldPreserves(n: nat)
    ensures Fold(n) % 0xFFFF == n % 0xFFFF
    ensures Fold(n) == 0 <==> n == 0
    ensures Fold(n) == 0xFFFF <==> n != 0 && n % 0xFFFF == 0
  {
    if n <= 0xFFFF {
    } else {
      FoldPreserves(n - 0xFFFF);
      ModAddMultiple(n - 0xFFFF, 1);
    }
  }

  method InternetChecksum(data: seq<byte>) returns (checksum: u16)
    ensures checksum == Internet(data)
  {
    var padded := data;
    if |data| % 2 != 0 {
      padded := data + [0];
      WordSumPad(data);
    }
    var total := WordSum(padded);
    while total / 0x1_0000 != 0
      invariant Fold(total) == Fold(WordSum(data))
      decreases total
    {
      FoldStep(total);
      total := total % 0x1_0000 + total / 0x1_0000;
    }
    checksum := 0xFFFF - total;
  }

  lemma {:induction false} WordSumPad(s: seq<byte>)
    requires |s| % 2 == 1
    ensures WordSum(s + [0]) == WordSum(s)
  {
    if |s| <= 1 {
    } else {
      assert (s + [0])[2..] == s[2..] + [0];
      WordSumPad(s[2..]);
    }
  }

  lemma {:induction false} WordSumConcat(s: seq<byte>, t: seq<byte>)
    requires |s| % 2 == 0
    ensures WordSum(s + t) == WordSum(s) + WordSum(t)
  {
    if s == [] {
      assert s + t == t;
    } else {
      assert (s + t)[2..] == s[2..] + t;
      WordSumConcat(s[2..], t);
    }
  }

  /** The same sum byte by byte: what stands at an even offset is a high byte. */
  function ByteSum(s: seq<byte>): nat {
    if s == [] then 0
    else
      var n: nat, last: nat := |s| - 1, s[|s| - 1];
      ByteSum(s[..n]) + if n % 2 == 0 then last * 0x100 else last
  }

  lemma {:induction false} ByteSumFront(s: seq<byte>)
    requires |s| >= 2
    ensures ByteSum(s) == Word(s[0], s[1]) + ByteSum(s[2..])
  {
    var n := |s| - 1;
    if n == 1 {
      assert s[..1][..0] == [] && s[2..] == [];
    } else {
      ByteSumFront(s[..n]);
      assert s[..n][2..] == s[2..][..n - 2];
    }
  }

  /** Adding words is adding bytes by their place, with or without the padding byte. */
  lemma {:induction false} WordSumByBytes(s: seq<byte>)
    ensures WordSum(s) == ByteSum(s)
  {
    if |s| <= 1 {
    } else {
      ByteSumFront(s);
      WordSumByBytes(s[2..]);
    }
  }

  /** The word at `at` enters the sum as a plain summand. */
  lemma WordSumAt(s: seq<byte>, at: nat)
    requires at % 2 == 0 && at + 2 <= |s|
    ensures WordSum(s) == WordSum(s[..at]) + Word(s[at], s[at + 1]) + WordSum(s[at + 2..])
  {
    assert s == s[..at] + s[at..at + 2] + s[at + 2..];
    WordSumMiddle(s[..at], s[at..at + 2], s[at + 2..]);
    assert s[at..at + 2] == [s[at], s[at + 1]];
  }

  lemma WordSumOne(w: u16)
    ensures WordSum(Be16(w)) == w
  {
    assert Be16(w)[2..] == [];
  }

  lemma WordSumMiddle(before: seq<byte>, middle: seq<byte>, after: seq<byte>)
    requires |before| % 2 == 0 && |middle| % 2 == 0
    ensures WordSum(before + middle + after) == WordSum(before) + WordSum(middle) + WordSum(after)
  {
    WordSumConcat(before, middle);
    WordSumConcat(before + middle, after);
  }

  /** Overwriting an aligned word changes the sum by the difference of the two words. */
  lemma WordSumReplace(s: seq<byte>, at: nat, middle: seq<byte>)
    requires at % 2 == 0 && |middle| == 2 && at + 2 <= |s|
    ensures WordSum(Patch(s, at, middle)) == WordSum(s) - WordSum(s[at..at + 2]) + WordSum(middle)
  {
    WordSumMiddle(s[..at], middle, s[at + 2..]);
    WordSumMiddle(s[..at], s[at..at + 2], s[at + 2..]);
    assert s == s[..at] + s[at..at + 2] + s[at + 2..];
  }

  lemma ZeroWord(s: seq<byte>, at: nat)
    requires at + 2 <= |s| && s[at] == 0 && s[at + 1] == 0
    ensures s[at..at + 2] == Be16(0)
  {
  }

  /** Writing a word over a zero word adds that word to the sum. */
  lemma WordSumInsert(s: seq<byte>, at: nat, w: u16)
    requires at % 2 == 0 && at + 2 <= |s|
    requires s[at] == 0 && s[at + 1] == 0
    ensures WordSum(Patch(s, at, Be16(w))) == WordSum(s) + w
  {
    hide WordSum, Patch;
    ZeroWord(s, at);
    hide Be16;
    WordSumReplace(s, at, Be16(w));
    WordSumOne(w);
    WordSumOne(0);
  }

  /** Adding its own complement to a sum leaves all ones. */
  lemma ComplementCancels(n: nat)
    ensures Fold(n + Complement(Fold(n))) == 0xFFFF
  {
    FoldPreserves(n);
    SumCancels(n, Fold(n));
    FoldPreserves(n + Complement(Fold(n)));
  }

  /** Storing the checksum of data whose checksum field is zero makes the data verify. */
  lemma ChecksumVerifies(s: seq<byte>, at: nat)
    requires at % 2 == 0 && at + 2 <= |s|
    requires s[at] == 0 && s[at + 1] == 0
    ensures Verifies(Patch(s, at, Be16(Internet(s))))
  {
    WordSumInsert(s, at, Internet(s));
    ComplementCancels(WordSum(s));
  }

  /** RFC 768: a computed zero is sent as all ones, and still verifies. */
  lemma AllOnesVerifies(s: seq<byte>, at: nat)
    requires at % 2 == 0 && at + 2 <= |s|
    requires s[at] == 0 && s[at + 1] == 0
    requires Internet(s) == 0
    ensures Verifies(Patch(s, at, Be16(0xFFFF)))
  {
    WordSumInsert(s, at, 0xFFFF);
    FoldMultiple(WordSum(s), 1);
  }

  lemma SumCancels(n: nat, folded: u16)
    requires folded % 0xFFFF == n % 0xFFFF
    ensures (n + Complement(folded)) % 0xFFFF == 0
  {
    var k := (n - folded) / 0xFFFF;
    assert n == folded + 0xFFFF * k;
    ModAddMultiple(0, k + 1);
  }

  /** Only one stored value verifies, up to the two encodings of zero. */
  lemma ChecksumUnique(s: seq<byte>, at: nat, v: u16)
    requires at % 2 == 0 && at + 2 <= |s|
    requires s[at] == 0 && s[at + 1] == 0
    requires Verifies(Patch(s, at, Be16(v)))
    ensures v == Internet(s) || {v, Internet(s)} == {0, 0xFFFF}
  {
    WordSumInsert(s, at, v);
    ComplementUnique(WordSum(s), v);
  }

  lemma ComplementUnique(n: nat, v: u16)
    requires Fold(n + v) == 0xFFFF
    ensures v == Complement(Fold(n)) || {v, Complement(Fold(n))} == {0, 0xFFFF}
  {
    FoldPreserves(n);
    FoldPreserves(n + v);
    SumCancels(n, Fold(n));
    CongruentWords(n, Complement(Fold(n)), v);
  }

  lemma CongruentWords(n: nat, c: u16, v: u16)
    requires (n + c) % 0xFFFF == (n + v) % 0xFFFF
    ensures v == c || {v, c} == {0, 0xFFFF}
  {
    var i, j := (n + c) / 0xFFFF, (n + v) / 0xFFFF;
    assert c - v == 0xFFFF * (i - j);
    assert -1 <= i - j <= 1;
    if i - j == 1 {
      assert c == 0xFFFF && v == 0;
    } else if i - j == -1 {
      assert c == 0 && v == 0xFFFF;
    }
  }
}
