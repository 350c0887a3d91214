/**
 TCP segmentation offload: the pseudo-header checksum that prepareTSO4 and prepareTSO6 put into
 the TCP header, against the one's complement sum of RFC 1071 with its carries folded at the end.
 */
module Checksum {
  import opened Arithmetic

  const ETH_HLEN := 14
  const IPV6_HLEN := 40          // kIPv6HdrLen
  const MSS_MAX := 0x7ff
  const TCP := 6

  type Byte = b: int | 0 <= b < 256
  type Word = w: int | 0 <= w < 0x1_0000

  // ---------------------------------------------------------------- sums

  /** One pass of the loops: add, add the carry back in, keep 16 bits. */
  function Add(csum: int, w: int): int
    requires csum >= 0 && w >= 0
  {
    var s := csum + w;
    (s + s / 0x1_0000) % 0x1_0000
  }

  /** The loops' sum. */
  function Folded(ws: seq<Word>): int
    ensures 0 <= Folded(ws) < 0x1_0000
  {
    if ws == [] then TCP else Add(Folded(ws[..|ws| - 1]), ws[|ws| - 1])
  }

  function Total(ws: seq<Word>): nat {
    if ws == [] then TCP else Total(ws[..|ws| - 1]) + ws[|ws| - 1]
  }

  /** Fold the carries of a large sum, as section 2 of RFC 1071 does after adding. */
  function FoldCarries(n: nat): nat {
    if n < 0x1_0000 then n else FoldCarries(n % 0x1_0000 + n / 0x1_0000)
  }

  // ---------------------------------------------------------------- they agree

  /** n's value in one's complement arithmetic, zero written as all ones. */
  function Residue(n: nat): nat
    requires n > 0
  {
    (n - 1) % 0xffff + 1
  }

  lemma SameResidue(n: nat, q: nat)
    requires n > 0
    ensures Residue(n + 0xffff * q) == Residue(n)
  {
    var a := n - 1;
    DivModUnique(0xffff, a / 0xffff + q, a % 0xffff, a + 0xffff * q);
  }

  lemma {:induction false} FoldIsResidue(n: nat)
    requires n > 0
    ensures FoldCarries(n) == Residue(n)
  {
    if n >= 0x1_0000 {
      var m := n % 0x1_0000 + n / 0x1_0000;
      SameResidue(m, n / 0x1_0000);
      FoldIsResidue(m);
    }
  }

  lemma AddIsResidue(csum: nat, w: nat)
    requires 0 < csum < 0x1_0000 && w < 0x1_0000
    ensures Add(csum, w) == Residue(csum + w)
  {
  }

  lemma ResidueAdd(n: nat, w: nat)
    requires n > 0
    ensures Residue(Residue(n) + w) == Residue(n + w)
  {
    SameResidue(Residue(n) + w, (n - 1) / 0xffff);
  }

  lemma AddToResidue(n: nat, w: nat)
    requires n > 0 && w < 0x1_0000
    ensures Add(Residue(n), w) == Residue(n + w)
  {
    AddIsResidue(Residue(n), w);
    ResidueAdd(n, w);
  }

  lemma {:induction false} FoldedIsResidue(ws: seq<Word>)
    ensures Total(ws) > 0 && Folded(ws) == Residue(Total(ws))
  {
    if ws != [] {
      var init, w := ws[..|ws| - 1], ws[|ws| - 1];
      FoldedIsResidue(init);
      AddToResidue(Total(init), w);
      assert Folded(ws) == Add(Folded(init), w) && Total(ws) == Total(init) + w;
    }
  }

  /** Folding at every step gives the sum with deferred carries. */
  lemma FoldedIsDeferred(ws: seq<Word>)
    ensures Folded(ws) == FoldCarries(Total(ws))
  {
    FoldedIsResidue(ws);
    FoldIsResidue(Total(ws));
  }

  /** What folding means: the sum in 16-bit one's complement arithmetic, where 0xffff counts as
      nothing and only an empty sum is written as zero. */
  lemma {:induction false} FoldMeans(n: nat)
    ensures FoldCarries(n) < 0x1_0000 && FoldCarries(n) % 0xffff == n % 0xffff && (FoldCarries(n) == 0 <==> n == 0)
  {
    if n >= 0x1_0000 {
      var m := n % 0x1_0000 + n / 0x1_0000;
      FoldMeans(m);
      DivModUnique(0xffff, m / 0xffff + n / 0x1_0000, m % 0xffff, n);
    }
  }

  lemma {:induction false} TotalRemove(ws: seq<Word>, i: nat)
    requires i < |ws|
    ensures Total(ws) == Total(ws[..i] + ws[i + 1..]) + ws[i]
  {
    var n := |ws| - 1;
    if i == n {
      assert ws[..i] + ws[i + 1..] == ws[..n];
    } else {
      TotalRemove(ws[..n], i);
      var rest := ws[..i] + ws[i + 1..];
      assert rest[..|rest| - 1] == ws[..n][..i] + ws[..n][i + 1..];
    }
  }

  /** Without one occurrence of w, the rest of a sequence. */
  lemma Without(b: seq<Word>, w: Word) returns (rest: seq<Word>)
    requires w in multiset(b)
    ensures |rest| == |b| - 1 && multiset(rest) == multiset(b) - multiset{w} && Total(b) == Total(rest) + w
  {
    var i :| 0 <= i < |b| && b[i] == w;
    rest := b[..i] + b[i + 1..];
    assert b == b[..i] + [w] + b[i + 1..];
    TotalRemove(b, i);
  }

  lemma {:induction false} TotalPermuted(a: seq<Word>, b: seq<Word>)
    requires multiset(a) == multiset(b)
    ensures Total(a) == Total(b)
    decreases |a|
  {
    if a == [] {
      assert |b| == |multiset(b)| == 0;
    } else {
      var init, w := a[..|a| - 1], a[|a| - 1];
      assert a == init + [w];
      var rest := Without(b, w);
      TotalPermuted(init, rest);
    }
  }

  /** The order of the words does not matter. */
  lemma FoldedPermuted(a: seq<Word>, b: seq<Word>)
    requires multiset(a) == multiset(b)
    ensures Folded(a) == Folded(b)
  {
    FoldedIsDeferred(a);
    FoldedIsDeferred(b);
    TotalPermuted(a, b);
  }

  // ---------------------------------------------------------------- the driver's code

  /** n big-endian words of a header from `at` on. */
  function WordsAt(h: seq<Byte>, at: nat, n: nat): seq<Word>
    requires at + 2 * n <= |h|
  {
    if n == 0 then []
    else WordsAt(h, at, n - 1) + [WordAt(h, at + 2 * (n - 1))]
  }

  /** ntohs. */
  function WordAt(h: seq<Byte>, at: nat): Word
    requires at + 2 <= |h|
  {
    var high: int, low: int := h[at], h[at + 1];
    high * 256 + low
  }

  /** Every second byte, n of them, added up. */
  function SumEvery(h: seq<Byte>, at: nat, n: nat): nat
    requires n > 0 ==> at + 2 * n - 1 <= |h|
  {
    if n == 0 then 0 else SumEvery(h, at, n - 1) + h[at + 2 * (n - 1)] as int
  }

  /** The words in bytes: high bytes at even, low bytes at odd places. */
  lemma {:induction false} TotalBytes(h: seq<Byte>, at: nat, n: nat)
    requires at + 2 * n <= |h|
    ensures Total(WordsAt(h, at, n)) == 6 + 256 * SumEvery(h, at, n) + SumEvery(h, at + 1, n)
  {
    if n > 0 {
      TotalBytes(h, at, n - 1);
      var ws := WordsAt(h, at, n);
      assert ws[..|ws| - 1] == WordsAt(h, at, n - 1);
    }
  }

  /** SumEvery adds up n bytes two apart. */
  lemma {:induction false} EveryPlus(h: seq<Byte>, at: nat, m: nat, n: nat)
    requires n > 0 && at + 2 * (m + n) - 1 <= |h|
    ensures SumEvery(h, at, m + n) == SumEvery(h, at, m) + SumEvery(h, at + 2 * m, n)
    decreases n
  {
    if n > 1 {
      EveryPlus(h, at, m, n - 1);
    } else {
      assert SumEvery(h, at + 2 * m, n - 1) == 0;
    }
  }

  lemma EveryFour(h: seq<Byte>, at: nat, n: nat)
    requires n == 4 && at + 7 <= |h|
    ensures SumEvery(h, at, n) == h[at] as int + h[at + 2] as int + h[at + 4] as int + h[at + 6] as int
  {
    assert SumEvery(h, at, n - 3) == h[at] as int;
    assert SumEvery(h, at, n - 2) == h[at] as int + h[at + 2] as int;
  }

  /** The addresses of an IPv4 header. */
  lemma FourWords(a: seq<Byte>)
    requires |a| >= 20
    ensures Total(WordsAt(a, 12, 4)) ==
            6 + 256 * (a[12] as int + a[14] as int + a[16] as int + a[18] as int)
            + a[13] as int + a[15] as int + a[17] as int + a[19] as int
  {
    var n := 4;
    TotalBytes(a, 12, n);
    EveryFour(a, 12, n);
    EveryFour(a, 13, n);
  }

  /** One pass of the loop that adds up the addresses. */
  method AddWord(csum: int, w: Word) returns (csum32: int)
    requires 0 <= csum < 0x1_0000
    ensures csum32 == Add(csum, w)
  {
    csum32 := csum + w as int;
    csum32 := csum32 + csum32 / 0x1_0000;
    csum32 := csum32 % 0x1_0000;
  }

  /** The loop that adds up the addresses. */
  method SumWords(h: array<Byte>, at: nat, n: nat) returns (csum32: int)
    requires at + 2 * n <= h.Length
    ensures csum32 == Folded(WordsAt(h[..], at, n))
    ensures csum32 == FoldCarries(6 + 256 * SumEvery(h[..], at, n) + SumEvery(h[..], at + 1, n))
  {
    csum32 := TCP;
    for i := 0 to n
      invariant csum32 == Folded(WordsAt(h[..], at, i))
    {
      FoldedNext(h[..], at, i);
      csum32 := AddWord(csum32, WordAt(h[..], at + 2 * i));
    }
    FoldedIsDeferred(WordsAt(h[..], at, n));
    TotalBytes(h[..], at, n);
  }

  lemma FoldedNext(h: seq<Byte>, at: nat, i: nat)
    requires at + 2 * (i + 1) <= |h|
    ensures Folded(WordsAt(h, at, i + 1)) == Add(Folded(WordsAt(h, at, i)), WordAt(h, at + 2 * i))
  {
    var ws := WordsAt(h, at, i + 1);
    assert ws[..|ws| - 1] == WordsAt(h, at, i);
  }

  /** prepareTSO4 on the packet from its IP header on: the sum of both addresses goes into the
      TCP header, nothing else changes. */
  method PrepareTSO4(h: array<Byte>, mss: nat) returns (tcpOffset: nat, mss': nat)
    requires h.Length >= 20 && h.Length >= h[0] % 16 * 4 + 18
    modifies h
    ensures tcpOffset == 14 + old(h[0]) % 16 * 4
    ensures mss' == if mss > 0x7ff then 0x7ff else mss
    ensures var th_sum, a := old(h[0]) % 16 * 4 + 16, old(h[..]);
            && h[th_sum] as int * 256 + h[th_sum + 1] as int ==
               FoldCarries(6 + 256 * (a[12] as int + a[14] as int + a[16] as int + a[18] as int)
                           + a[13] as int + a[15] as int + a[17] as int + a[19] as int)
            && forall i :: 0 <= i < h.Length && i != th_sum && i != th_sum + 1 ==> h[i] == old(h[i])
  {
    var csum32 := SumWords(h, 12, 4);
    FoldedIsDeferred(WordsAt(h[..], 12, 4));
    FourWords(h[..]);
    var il: int := h[0] % 16 * 4;
    h[il + 16], h[il + 17] := csum32 / 256, csum32 % 256;
    tcpOffset := ETH_HLEN + il;
    mss' := if mss > MSS_MAX then MSS_MAX else mss;
  }

  /** prepareTSO6, the same with 16 words of addresses; the payload length is cleared. */
  method PrepareTSO6(h: array<Byte>, mss: nat) returns (tcpOffset: nat, mss': nat)
    requires h.Length >= IPV6_HLEN + 18
    modifies h
    ensures tcpOffset == 54
    ensures mss' == if mss > 0x7ff then 0x7ff else mss
    ensures h[56] as int * 256 + h[57] as int ==
            FoldCarries(6 + 256 * SumEvery(old(h[..]), 8, 16) + SumEvery(old(h[..]), 9, 16))
    ensures h[4] == 0 && h[5] == 0
    ensures forall i :: 0 <= i < h.Length && i != 56 && i != 57 && i != 4 && i != 5 ==> h[i] == old(h[i])
  {
    ghost var before := h[..];
    h[4], h[5] := 0, 0;
    SameWords(before, h[..], 8, 16);
    var csum32 := SumWords(h, 8, 16);
    FoldedIsDeferred(WordsAt(h[..], 8, 16));
    TotalBytes(before, 8, 16);
    h[IPV6_HLEN + 16], h[IPV6_HLEN + 17] := csum32 / 256, csum32 % 256;
    tcpOffset := ETH_HLEN + IPV6_HLEN;
    mss' := if mss > MSS_MAX then MSS_MAX else mss;
  }

  lemma {:induction false} SameWords(a: seq<Byte>, b: seq<Byte>, at: nat, n: nat)
    requires |a| == |b| && at + 2 * n <= |a|
    requires forall i :: at <= i < at + 2 * n ==> a[i] == b[i]
    ensures WordsAt(a, at, n) == WordsAt(b, at, n)
  {
    if n > 0 {
      SameWords(a, b, at, n - 1);
    }
  }
}
