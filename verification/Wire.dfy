/** Big-endian integers of src/net/wire.hpp. */
module Wire {
  import Arithmetic

  type byte = x: nat | x < 256

  function Pow256(n: nat): nat {
    if n == 0 then 1 else 256 * Pow256(n - 1)
  }

  /** The n least significant bytes of v, most significant first. */
  function Put(v: nat, n: nat): (s: seq<byte>)
    ensures |s| == n
  {
    if n == 0 then [] else Put(v / 256, n - 1) + [v % 256]
  }

  function Get(s: seq<byte>): nat {
    if s == [] then 0 else Get(s[..|s| - 1]) * 256 + s[|s| - 1]
  }

  /** Reading back what was written gives the value, if it fits. */
  lemma {:induction false} GetPut(v: nat, n: nat)
    requires v < Pow256(n)
    ensures Get(Put(v, n)) == v
  {
    if n > 0 {
      GetPut(v / 256, n - 1);
      assert Put(v, n)[..n - 1] == Put(v / 256, n - 1);
    }
  }

  /** Writing what was read gives the same bytes, and n bytes stay below 256 to the n. */
  lemma {:induction false} PutGet(s: seq<byte>)
    ensures Get(s) < Pow256(|s|) && Put(Get(s), |s|) == s
  {
    if s != [] {
      PutGet(s[..|s| - 1]);
    }
  }

  lemma DivDiv(v: nat, b: nat)
    requires b > 0
    ensures v / 256 / b == v / (256 * b)
  {
    var q := v / 256 / b;
    var r := (v / 256) % b;
    assert v / 256 == q * b + r;
    assert v == (q * b + r) * 256 + v % 256;
    assert (q * b + r) * 256 == q * (256 * b) + r * 256;
    assert r * 256 + v % 256 < 256 * b;
    Arithmetic.DivUnique(v, 256 * b, q, r * 256 + v % 256);
  }

  lemma {:induction false} PowPositive(n: nat)
    ensures Pow256(n) > 0
  {
    if n > 0 {
      PowPositive(n - 1);
    }
  }

  /** Byte i is the value shifted right by 8 * (n - 1 - i) bits and masked, as the source writes it. */
  lemma {:induction false} PutByte(v: nat, n: nat, i: nat)
    requires i < n
    ensures Pow256(n - 1 - i) > 0 && Put(v, n)[i] == v / Pow256(n - 1 - i) % 256
    decreases n
  {
    PowPositive(n - 1 - i);
    if i < n - 1 {
      PutByte(v / 256, n - 1, i);
      DivDiv(v, Pow256(n - 2 - i));
    }
  }
}
