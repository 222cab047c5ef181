/** Little-endian words in byte sequences, and what a sequence holds at an offset. */
module LittleEndian {
  import opened Bits

  function Value(s: seq<byte>): (v: nat) { if s == [] then 0 else s[0] + 256 * Value(s[1..]) }

  /** One past the largest value of `n` bytes. */
  function Limit(n: nat): (v: nat)
    ensures v > 0
  {
    if n == 0 then 1 else 256 * Limit(n - 1)
  }

  function Encoded(v: nat, n: nat): (s: seq<byte>)
    ensures |s| == n
  {
    if n == 0 then [] else [v % 256] + Encoded(v / 256, n - 1)
  }

  lemma {:induction false} EncodedValue(v: nat, n: nat)
    requires v < Limit(n)
    ensures Value(Encoded(v, n)) == v
  {
    if n > 0 {
      EncodedValue(v / 256, n - 1);
      assert Encoded(v, n)[1..] == Encoded(v / 256, n - 1);
    }
  }

  lemma Limits()
    ensures Limit(4) == U32 && Limit(8) == U64
  {
    assert Limit(1) == 256 && Limit(2) == 0x1_0000 && Limit(3) == 0x100_0000 && Limit(4) == U32;
    assert Limit(5) == 256 * U32 && Limit(6) == 0x1_0000 * U32 && Limit(7) == 0x100_0000 * U32;
  }

  /** Every byte counts: changing one changes the value. */
  lemma {:induction false} ValueChanges(s: seq<byte>, i: nat, b: byte)
    requires i < |s|
    ensures Value(s[i := b]) == Value(s) <==> s[i] == b
  {
    if i == 0 {
      assert s[i := b][1..] == s[1..];
    } else {
      assert s[i := b][1..] == s[1..][i - 1 := b];
      ValueChanges(s[1..], i - 1, b);
    }
  }

  /** `m` holds the bytes `s` at offset `off`. */
  predicate Holds(m: seq<byte>, off: nat, s: seq<byte>) { off + |s| <= |m| && m[off..off + |s|] == s }

  lemma HoldsParts(m: seq<byte>, off: nat, a: seq<byte>, b: seq<byte>)
    requires Holds(m, off, a + b)
    ensures Holds(m, off, a) && Holds(m, off + |a|, b)
  {
    var s := m[off..off + |a + b|];
    assert m[off..off + |a|] == s[..|a|] == a;
    assert m[off + |a|..off + |a| + |b|] == s[|a|..] == b;
  }

  lemma HoldsAt(m: seq<byte>, off: nat, s: seq<byte>, i: nat)
    requires Holds(m, off, s) && i < |s|
    ensures off + i < |m| && m[off + i] == s[i]
  {
    assert m[off..off + |s|][i] == m[off + i];
  }
}
