/** Machine words as subset types, optional values, and big-endian numbers over byte strings. */
module Words {

  type u8 = x: int | 0 <= x < 0x100
  type u16 = x: int | 0 <= x < 0x1_0000
  type i16 = x: int | -0x8000 <= x < 0x8000
  type u32 = x: int | 0 <= x < 0x1_0000_0000
  type i32 = x: int | -0x8000_0000 <= x < 0x8000_0000

  datatype Option<T> = None | Some(value: T)

  function Min(a: int, b: int): int { if a < b then a else b }

  function Max(a: int, b: int): int { if a < b then b else a }

  /** Byte i of a buffer that is read as if zeros followed it. */
  function At(s: seq<u8>, i: nat): u8 { if i < |s| then s[i] else 0 }

  /** The first n bytes of the zero-extended buffer, as a big-endian number. */
  function PrefixNat(s: seq<u8>, n: nat): nat
  {
    if n == 0 then 0 else 256 * PrefixNat(s, n - 1) + At(s, n - 1)
  }

  /** The whole buffer as a big-endian number. */
  function Nat(s: seq<u8>): nat { PrefixNat(s, |s|) }

  function Repeat(b: u8, n: nat): (r: seq<u8>)
    ensures |r| == n
  {
    if n == 0 then [] else Repeat(b, n - 1) + [b]
  }

  lemma {:induction false} PrefixAgree(a: seq<u8>, b: seq<u8>, n: nat)
    requires forall i :: 0 <= i < n ==> At(a, i) == At(b, i)
    ensures PrefixNat(a, n) == PrefixNat(b, n)
  {
    if n > 0 {
      assert At(a, n - 1) == At(b, n - 1);
      PrefixAgree(a, b, n - 1);
    }
  }

  lemma NatSnoc(s: seq<u8>, b: u8)
    ensures Nat(s + [b]) == 256 * Nat(s) + b
  {
    PrefixAgree(s + [b], s, |s|);
  }

  /** Adding one ripples through trailing 0xFF bytes. */
  lemma {:induction false} CarryRipple(p: seq<u8>, r: u8, k: nat)
    requires r < 255
    ensures Nat(p + [r] + Repeat(255, k)) + 1 == Nat(p + [r + 1] + Repeat(0, k))
  {
    if k == 0 {
      assert p + [r] + Repeat(255, 0) == p + [r];
      assert p + [r + 1] + Repeat(0, 0) == p + [r + 1];
      NatSnoc(p, r);
      NatSnoc(p, r + 1);
    } else {
      CarryRipple(p, r, k - 1);
      assert p + [r] + Repeat(255, k) == p + [r] + Repeat(255, k - 1) + [255];
      assert p + [r + 1] + Repeat(0, k) == p + [r + 1] + Repeat(0, k - 1) + [0];
      NatSnoc(p + [r] + Repeat(255, k - 1), 255);
      NatSnoc(p + [r + 1] + Repeat(0, k - 1), 0);
    }
  }
}
