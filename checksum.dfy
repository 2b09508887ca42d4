/**
  The one-byte rolling checksum of a frame payload (`chksum`, identical in both
  bridge scripts): starting from 0, each character in turn is added as its code
  point, the sum is shifted left by one bit, and only the low byte is kept.
  Python integers do not overflow, so `<< 1` on the non-negative accumulator is
  a multiplication by two and `% 256` is the only truncation.
 */
module Checksum {

  /** `ord(a)`: the code point of a character. */
  function Ord(a: char): nat { a as nat }

  /** One turn of the loop body: `c = ((c + ord(a)) << 1) % 256`. */
  function ChksumStep(c: nat, a: char): (r: nat)
    ensures r < 256 && r % 2 == 0
  {
    ((c + Ord(a)) * 2) % 256
  }

  /** The loop run over `s` from accumulator `c`, character by character from the front. */
  function Fold(c: nat, s: string): nat
    decreases |s|
  {
    if s == [] then c else Fold(ChksumStep(c, s[0]), s[1..])
  }

  /** `chksum(s)`: the loop run from 0. */
  function Chksum(s: string): nat
  {
    Fold(0, s)
  }

  /** Running the loop over `s + t` is running it over `s`, then over `t` from where it stopped. */
  lemma {:induction false} FoldAppend(c: nat, s: string, t: string)
    ensures Fold(c, s + t) == Fold(Fold(c, s), t)
    decreases |s|
  {
    if s != [] {
      assert (s + t)[1..] == s[1..] + t;
      FoldAppend(ChksumStep(c, s[0]), s[1..], t);
    } else {
      assert s + t == t;
    }
  }

  /** The fold equation: one more character costs one more loop turn. */
  lemma ChksumSnoc(s: string, a: char)
    ensures Chksum(s + [a]) == ((Chksum(s) + Ord(a)) * 2) % 256
  {
    FoldAppend(0, s, [a]);
  }

  /**
    The checksum is a byte; it is 0 for the empty payload and even for any other,
    because the shift comes before the reduction.
   */
  lemma {:induction false} ChksumRange(s: string)
    ensures Chksum(s) < 256
    ensures s == [] ==> Chksum(s) == 0
    ensures s != [] ==> Chksum(s) % 2 == 0
  {
    if s != [] {
      var init := s[..|s| - 1];
      assert s == init + [s[|s| - 1]];
      ChksumSnoc(init, s[|s| - 1]);
    }
  }

  /** The characters in a different order give a different checksum: `chksum("abc") != chksum("bca")`. */
  lemma OrderSensitive()
    ensures Chksum("abc") == 86 && Chksum("bca") == 94
  {
  }

  /** The source's loop, run over the payload with a mutable accumulator. */
  method ComputeChksum(s: string) returns (c: nat)
    ensures c == Chksum(s)
  {
    c := 0;
    for i := 0 to |s|
      invariant c == Chksum(s[..i])
    {
      assert s[..i + 1] == s[..i] + [s[i]];
      ChksumSnoc(s[..i], s[i]);
      c := ((c + Ord(s[i])) * 2) % 256;
    }
    assert s[..|s|] == s;
  }

  // --------------------------------------------- what the checksum covers

  function Pow2(n: nat): (r: nat)
    ensures r >= 1
  {
    if n == 0 then 1 else 2 * Pow2(n - 1)
  }

  /**
    The checksum before reduction: every code point weighted by two to the power
    of its distance from the end of the payload (the last one by 2).
   */
  function Weight(s: string): nat
  {
    if s == [] then 0 else (Weight(s[..|s| - 1]) + Ord(s[|s| - 1])) * 2
  }

  lemma ModStep(w: nat, o: nat)
    ensures ((w % 256 + o) * 2) % 256 == ((w + o) * 2) % 256
  {
    var q := w / 256;
    assert w == 256 * q + w % 256;
    assert (w + o) * 2 == 512 * q + (w % 256 + o) * 2;
  }

  lemma {:induction false} ChksumIsWeight(s: string)
    ensures Chksum(s) == Weight(s) % 256
    decreases |s|
  {
    if s != [] {
      var init, a := s[..|s| - 1], s[|s| - 1];
      assert s == init + [a];
      ChksumSnoc(init, a);
      ChksumIsWeight(init);
      ModStep(Weight(init), Ord(a));
    }
  }

  lemma Distribute(w: nat, pw: nat, v: nat)
    ensures (w * pw + v) * 2 == w * (2 * pw) + v * 2
  {
  }

  lemma {:induction false} WeightAppend(p: string, t: string)
    ensures Weight(p + t) == Weight(p) * Pow2(|t|) + Weight(t)
    decreases |t|
  {
    if t == [] {
      assert p + t == p;
    } else {
      var init, a := t[..|t| - 1], t[|t| - 1];
      var pt := p + t;
      assert pt[..|pt| - 1] == p + init && pt[|pt| - 1] == a;
      WeightAppend(p, init);
      var wp, pw, wi := Weight(p), Pow2(|init|), Weight(init);
      assert Weight(pt) == (wp * pw + wi + Ord(a)) * 2;
      assert Weight(t) == (wi + Ord(a)) * 2;
      assert Pow2(|t|) == 2 * pw;
      Distribute(wp, pw, wi + Ord(a));
    }
  }

  lemma {:induction false} Pow2AtLeastEight(n: nat)
    requires n >= 8
    ensures Pow2(n) % 256 == 0
    decreases n
  {
    if n > 8 {
      Pow2AtLeastEight(n - 1);
    }
  }

  lemma MultipleOf256(x: nat, k: nat, y: nat)
    requires k % 256 == 0
    ensures (x * k + y) % 256 == y % 256
  {
    var q := k / 256;
    assert x * k == 256 * (x * q);
  }

  /**
    Only the last seven characters of a payload reach the checksum: the eighth
    from the end is weighted by 2 to the 8th, and everything before it by more,
    so all of it is shifted out of the byte. Two payloads that end in the same
    seven characters therefore carry the same checksum, so a change to an
    earlier character is never detected by it.
   */
  lemma ChksumLastSeven(p: string, q: string, t: string)
    requires |t| >= 7
    ensures Chksum(p + t) == Chksum(q + t) == Chksum(t)
  {
    ChksumIsWeight(p + t);
    ChksumIsWeight(q + t);
    ChksumIsWeight(t);
    if |t| >= 8 {
      Pow2AtLeastEight(|t|);
      WeightAppend(p, t);
      WeightAppend(q, t);
      MultipleOf256(Weight(p), Pow2(|t|), Weight(t));
      MultipleOf256(Weight(q), Pow2(|t|), Weight(t));
    } else {
      LastSevenAfterEven(p, t);
      LastSevenAfterEven(q, t);
    }
  }

  /** With exactly seven trailing characters, the prefix's weight is even and is multiplied by 2 to the 7th. */
  lemma LastSevenAfterEven(p: string, t: string)
    requires |t| == 7
    ensures Weight(p + t) % 256 == Weight(t) % 256
  {
    WeightAppend(p, t);
    assert Weight(p) % 2 == 0;
    var h := Weight(p) / 2;
    assert Weight(p) == 2 * h;
    assert Pow2(7) == 128;
    MultipleOf256(h, 256, Weight(t));
    assert Weight(p) * Pow2(|t|) == h * 256;
  }
}
