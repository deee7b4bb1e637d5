/** Fixed-width unsigned integers and big-endian byte strings. */
module Bytes {

  type u8 = x: int | 0 <= x < 0x100
  type u16 = x: int | 0 <= x < 0x1_0000
  type u32 = x: int | 0 <= x < 0x1_0000_0000
  type u64 = x: int | 0 <= x < 0x1_0000_0000_0000_0000

  /** 256 to the power n: one more than the largest n-byte value. */
  function Pow256(n: nat): (r: nat)
    ensures r > 0
  {
    if n == 0 then 1 else 256 * Pow256(n - 1)
  }

  lemma Pow256Widths()
    ensures Pow256(1) == 0x100
    ensures Pow256(2) == 0x1_0000
    ensures Pow256(4) == 0x1_0000_0000
    ensures Pow256(8) == 0x1_0000_0000_0000_0000
  {
    assert Pow256(1) == 256;
    assert Pow256(2) == 256 * 256;
    assert Pow256(3) == 256 * 256 * 256;
    assert Pow256(4) == 256 * 256 * 256 * 256;
    assert Pow256(5) == 256 * Pow256(4);
    assert Pow256(6) == 256 * Pow256(5);
    assert Pow256(7) == 256 * Pow256(6);
  }

  /** The unsigned integer a byte string spells, most significant byte first. */
  function BE(s: seq<u8>): (v: nat)
    ensures v < Pow256(|s|)
  {
    if s == [] then 0
    else
      var high := BE(s[..|s| - 1]);
      assert high <= Pow256(|s| - 1) - 1;
      high * 256 + s[|s| - 1]
  }

  /** The n-byte big-endian spelling of v. */
  function ToBE(v: nat, n: nat): (s: seq<u8>)
    requires v < Pow256(n)
    ensures |s| == n && BE(s) == v
  {
    if n == 0 then []
    else
      var high := ToBE(v / 256, n - 1);
      var s := high + [v % 256];
      assert s[..n - 1] == high;
      s
  }

  /** Decoding then re-encoding a byte string gives it back. */
  lemma {:induction false} ToBEOfBE(s: seq<u8>)
    ensures ToBE(BE(s), |s|) == s
  {
    if s != [] {
      var n := |s|;
      var high := s[..n - 1];
      ToBEOfBE(high);
      assert BE(s) == BE(high) * 256 + s[n - 1];
      assert BE(s) / 256 == BE(high);
      assert BE(s) % 256 == s[n - 1];
      assert s == high + [s[n - 1]];
    }
  }

  /** Two byte strings of one length spell the same number only if they are equal. */
  lemma BEInjective(s: seq<u8>, t: seq<u8>)
    requires |s| == |t|
    ensures BE(s) == BE(t) <==> s == t
  {
    if BE(s) == BE(t) {
      ToBEOfBE(s);
      ToBEOfBE(t);
    }
  }

  /** A byte string equals a number's spelling exactly when it spells that number. */
  lemma BEMatches(s: seq<u8>, v: nat)
    requires v < Pow256(|s|)
    ensures BE(s) == v <==> s == ToBE(v, |s|)
  {
    BEInjective(s, ToBE(v, |s|));
  }
}
