/** The C machine the daemon runs on: 64-bit `size_t`, bytes, and block copies. */
module CMachine {
  type byte = bv8

  const WORD_SIZE: nat := 8 // sizeof(void *)
  const INT_MAX: nat := 0x7FFF_FFFF
  const SIZE_MAX: nat := 0xFFFF_FFFF_FFFF_FFFF
  const SIZE_RANGE: nat := 0x1_0000_0000_0000_0000
  // No C object is larger than PTRDIFF_MAX bytes, so every larger allocation request fails.
  const OBJECT_MAX: nat := 0x7FFF_FFFF_FFFF_FFFF

  /** Unsigned 64-bit wrap-around. */
  function Wrap(n: int): (w: nat)
    ensures w <= SIZE_MAX
    ensures 0 <= n <= SIZE_MAX ==> w == n
    ensures n == -1 ==> w == SIZE_MAX
    ensures n == SIZE_RANGE ==> w == 0
  {
    n % SIZE_RANGE
  }

  lemma WrapShift(n: int, k: int)
    ensures Wrap(n + SIZE_RANGE * k) == Wrap(n)
  {
    var q, r := n / SIZE_RANGE, n % SIZE_RANGE;
    assert n + SIZE_RANGE * k == SIZE_RANGE * (q + k) + r;
  }

  /** Wrapping early makes no difference to a difference or to a product that is wrapped again. */
  lemma WrapEarly(n: int, m: int, e: nat)
    ensures Wrap(Wrap(n) - m) == Wrap(n - m)
    ensures Wrap(Wrap(n) * e) == Wrap(n * e)
  {
    var q := n / SIZE_RANGE;
    assert n == SIZE_RANGE * q + Wrap(n);
    WrapShift(Wrap(n) - m, q);
    assert n * e == Wrap(n) * e + SIZE_RANGE * (q * e) by {
      assert (SIZE_RANGE * q + Wrap(n)) * e == SIZE_RANGE * (q * e) + Wrap(n) * e;
    }
    WrapShift(Wrap(n) * e, q * e);
  }

  predicate SafeToAdd(a: nat, b: nat)
    requires b <= SIZE_MAX
  {
    a <= SIZE_MAX - b
  }

  predicate SafeToMul(a: nat, b: nat) {
    b == 0 || a <= SIZE_MAX / b
  }

  /** The division in the guard says exactly that the product fits. */
  lemma SafeToMulIsExact(a: nat, b: nat)
    ensures SafeToMul(a, b) <==> a * b <= SIZE_MAX
  {
  }

  // ----- the mask form of size_align -----

  /** Bitwise and. */
  function And(a: nat, b: nat): nat {
    if a == 0 || b == 0 then 0 else (if a % 2 == 1 && b % 2 == 1 then 1 else 0) + 2 * And(a / 2, b / 2)
  }

  lemma {:induction false} AndAtMost(a: nat, b: nat)
    ensures And(a, b) <= a && And(a, b) <= b
  {
    if a > 0 && b > 0 {
      AndAtMost(a / 2, b / 2);
    }
  }

  function Pow2(k: nat): (p: nat)
    ensures p > 0
  {
    if k == 0 then 1 else 2 * Pow2(k - 1)
  }

  lemma {:induction false} Pow2Sum(a: nat, b: nat)
    ensures Pow2(a + b) == Pow2(a) * Pow2(b)
  {
    if a > 0 {
      Pow2Sum(a - 1, b);
    }
  }

  lemma {:induction false} AndOnes(m: nat, k: nat)
    requires m < Pow2(k)
    ensures And(m, Pow2(k) - 1) == m
  {
    if k > 0 {
      AndOnes(m / 2, k - 1);
      assert (Pow2(k) - 1) / 2 == Pow2(k - 1) - 1;
    }
  }

  function Complement(a: nat): nat
    requires a <= SIZE_MAX
  {
    SIZE_MAX - a
  }

  /** (n + sizeof(void *) - 1) & ~(sizeof(void *) - 1), on 64-bit words */
  function SizeAlign(n: nat): nat {
    And(Wrap(n + WORD_SIZE - 1), Complement(WORD_SIZE - 1))
  }

  lemma AndEven(a: nat, b: nat)
    ensures And(a, 2 * b) == 2 * And(a / 2, b)
  {
  }

  lemma MaskClearsLowBits(a: nat, k: nat)
    requires a < 8 * Pow2(k)
    ensures And(a, 8 * (Pow2(k) - 1)) == a - a % 8
  {
    var ones := Pow2(k) - 1;
    AndEven(a, 4 * ones);
    AndEven(a / 2, 2 * ones);
    AndEven(a / 2 / 2, ones);
    assert a / 2 / 2 / 2 == a / 8;
    AndOnes(a / 8, k);
  }

  lemma MaskOfWord()
    ensures 8 * Pow2(61) == SIZE_RANGE
    ensures 8 * (Pow2(61) - 1) == Complement(7)
  {
    assert Pow2(8) == 0x100;
    Pow2Sum(8, 8);
    Pow2Sum(16, 16);
    Pow2Sum(32, 32);
    Pow2Sum(3, 61);
    assert Pow2(3) == 8;
  }

  lemma SizeAlignValue(n: nat)
    ensures SizeAlign(n) == Wrap(n + 7) - Wrap(n + 7) % 8
  {
    MaskOfWord();
    MaskClearsLowBits(Wrap(n + 7), 61);
  }

  predicate IsLeastMultipleAbove(r: nat, n: nat) {
    r % WORD_SIZE == 0 && n <= r < n + WORD_SIZE // the next lower multiple is r - WORD_SIZE < n
  }

  /** The mask rounds up to the least multiple of the word size, except that the last seven sizes wrap to 0. */
  lemma SizeAlignRoundsUp(n: nat)
    requires n <= SIZE_MAX
    ensures IsLeastMultipleAbove(SizeAlign(n), n) <==> n <= SIZE_MAX - 7
    ensures n <= SIZE_MAX - 7 ==> SizeAlign(n) <= SIZE_MAX
    ensures n > SIZE_MAX - 7 ==> SizeAlign(n) == 0
  {
    SizeAlignValue(n);
    if n <= SIZE_MAX - 7 {
      RoundedUp(n);
    } else {
      assert Wrap(n + 7) == n + 7 - SIZE_RANGE < 7;
    }
  }

  lemma RoundedUp(n: nat)
    ensures (n + 7 - (n + 7) % 8) % 8 == 0 && n <= n + 7 - (n + 7) % 8 < n + 8
  {
  }

  // ----- block copies -----

  /** `s` with the bytes at `at` overwritten by `x`. */
  function Patch(s: seq<byte>, at: nat, x: seq<byte>): (r: seq<byte>)
    requires at + |x| <= |s|
    ensures |r| == |s|
  {
    s[..at] + x + s[at + |x|..]
  }

  lemma PatchSlices(s: seq<byte>, at: nat, x: seq<byte>)
    requires at + |x| <= |s|
    ensures Patch(s, at, x)[..at] == s[..at]
    ensures Patch(s, at, x)[at..at + |x|] == x
    ensures Patch(s, at, x)[at + |x|..] == s[at + |x|..]
  {
  }

  lemma PatchNothing(s: seq<byte>, at: nat, x: seq<byte>)
    requires at <= |s| && x == []
    ensures Patch(s, at, x) == s
  {
  }

  lemma PatchGrows(s: seq<byte>, at: nat, x: seq<byte>, y: byte)
    requires at + |x| < |s|
    ensures Patch(s, at, x)[at + |x| := y] == Patch(s, at, x + [y])
  {
  }

  /** Copying upwards to a lower address: the next source byte is still intact. */
  lemma MoveUp(s: seq<byte>, dst: nat, src: nat, i: nat)
    requires dst <= src && src + i < |s|
    ensures Patch(s, dst, s[src..src + i])[src + i] == s[src + i]
    ensures Patch(s, dst, s[src..src + i])[dst + i := s[src + i]] == Patch(s, dst, s[src..src + i + 1])
  {
    assert s[src..src + i + 1] == s[src..src + i] + [s[src + i]];
    PatchGrows(s, dst, s[src..src + i], s[src + i]);
  }

  /** Copying downwards to a higher address: the next source byte is still intact. */
  lemma MoveDown(s: seq<byte>, dst: nat, src: nat, i: nat, n: nat)
    requires src < dst && i < n && dst + n <= |s|
    ensures Patch(s, dst + i + 1, s[src + i + 1..src + n])[src + i] == s[src + i]
    ensures Patch(s, dst + i + 1, s[src + i + 1..src + n])[dst + i := s[src + i]]
            == Patch(s, dst + i, s[src + i..src + n])
  {
  }

  method MoveUpwards(a: array<byte>, dst: nat, src: nat, n: nat)
    requires dst <= src && src + n <= a.Length
    modifies a
    ensures a[..] == Patch(old(a[..]), dst, old(a[..])[src..src + n])
  {
    hide Patch;
    ghost var was := a[..];
    var i := 0;
    PatchNothing(was, dst, was[src..src + i]);
    while i < n
      invariant i <= n
      invariant a[..] == Patch(was, dst, was[src..src + i])
    {
      MoveUp(was, dst, src, i);
      ghost var now := a[..];
      a[dst + i] := a[src + i];
      assert a[..] == now[dst + i := now[src + i]];
      i := i + 1;
    }
  }

  method MoveDownwards(a: array<byte>, dst: nat, src: nat, n: nat)
    requires src < dst && dst + n <= a.Length
    modifies a
    ensures a[..] == Patch(old(a[..]), dst, old(a[..])[src..src + n])
  {
    hide Patch;
    ghost var was := a[..];
    var i := n;
    PatchNothing(was, dst + i, was[src + i..src + n]);
    while i > 0
      invariant 0 <= i <= n
      invariant a[..] == Patch(was, dst + i, was[src + i..src + n])
    {
      i := i - 1;
      MoveDown(was, dst, src, i, n);
      ghost var now := a[..];
      a[dst + i] := a[src + i];
      assert a[..] == now[dst + i := now[src + i]];
    }
  }

  /** memmove inside one buffer: the direction is chosen so that an overlap is never read after it was written. */
  method Memmove(a: array<byte>, dst: nat, src: nat, n: nat)
    requires dst + n <= a.Length && src + n <= a.Length
    modifies a
    ensures a[..] == Patch(old(a[..]), dst, old(a[..])[src..src + n])
  {
    if dst <= src {
      MoveUpwards(a, dst, src, n);
    } else {
      MoveDownwards(a, dst, src, n);
    }
  }

  /** memcpy from memory outside the buffer. */
  method Memcpy(a: array<byte>, dst: nat, src: seq<byte>)
    requires dst + |src| <= a.Length
    modifies a
    ensures a[..] == Patch(old(a[..]), dst, src)
  {
    ghost var was := a[..];
    var i := 0;
    while i < |src|
      invariant i <= |src|
      invariant a[..] == Patch(was, dst, src[..i])
    {
      PatchGrows(was, dst, src[..i], src[i]);
      assert src[..i + 1] == src[..i] + [src[i]];
      a[dst + i] := src[i];
      i := i + 1;
    }
    assert src[..i] == src;
  }

  /** realloc: a new block that starts with the bytes of the old one; its other bytes are arbitrary. */
  method Realloc(a: array<byte>, newSize: nat) returns (b: array<byte>)
    ensures fresh(b) && b.Length == newSize
    ensures newSize >= a.Length ==> b[..a.Length] == a[..]
    ensures newSize <= a.Length ==> b[..] == a[..newSize]
  {
    b := new byte[newSize];
    var keep := if a.Length <= newSize then a.Length else newSize;
    Memcpy(b, 0, a[..keep]);
  }
}
