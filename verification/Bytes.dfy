/** Little-endian words in a byte buffer. */
module Bytes {
  import opened Arith

  type Byte = b: int | 0 <= b < 256

  const WORD := 0x1_0000_0000

  function ReadBytes(b0: Byte, b1: Byte, b2: Byte, b3: Byte): (w: nat)
    ensures w < WORD
  {
    b0 + 0x100 * b1 + 0x1_0000 * b2 + 0x100_0000 * b3
  }

  /** read32le */
  function Read(data: seq<Byte>, t: nat): (w: nat)
    requires t + 4 <= |data|
    ensures w < WORD
  {
    ReadBytes(data[t], data[t + 1], data[t + 2], data[t + 3])
  }

  function Split(v: int): (b: seq<Byte>)
    ensures |b| == 4
  {
    [v % 0x100, v / 0x100 % 0x100, v / 0x1_0000 % 0x100, v / 0x100_0000 % 0x100]
  }

  /** write32le: the low 32 bits of v, whatever its sign. */
  function Write(data: seq<Byte>, t: nat, v: int): (d: seq<Byte>)
    requires t + 4 <= |data|
    ensures |d| == |data|
  {
    data[..t] + Split(v) + data[t + 4..]
  }

  lemma SplitRead(v: int)
    ensures var b := Split(v); ReadBytes(b[0], b[1], b[2], b[3]) == v % WORD
  {
    var q0 := v / 0x100;
    var q1 := q0 / 0x100;
    var q2 := q1 / 0x100;
    assert v / 0x1_0000 == q1 && v / 0x100_0000 == q2;
    assert v / WORD == q2 / 0x100;
  }

  /** Byte k of a written word is its digit of weight 2^(8k). */
  lemma WrittenByte(data: seq<Byte>, t: nat, v: int, k: nat)
    requires t + 4 <= |data| && k < 4
    ensures Write(data, t, v)[t + k] == v / Pow2(8 * k) % 0x100
  {
    Pow2Values();
    assert Pow2(8) == 0x100;
    Pow2Add(8, 16);
  }

  lemma ReadWritten(data: seq<Byte>, t: nat, v: int)
    requires t + 4 <= |data|
    ensures Read(Write(data, t, v), t) == v % WORD
  {
    SplitRead(v);
  }

  lemma ReadElsewhere(data: seq<Byte>, t: nat, v: int, c: nat)
    requires t + 4 <= |data| && c + 4 <= |data| && Apart(t, c)
    ensures Read(Write(data, t, v), c) == Read(data, c)
  {
    var d := Write(data, t, v);
    assert forall k :: 0 <= k < |data| && !(t <= k < t + 4) ==> d[k] == data[k];
  }

  /** Two four-byte cells that share no byte. */
  predicate Apart(c: nat, d: nat) { c + 4 <= d || d + 4 <= c }

  lemma WritePrefix(data: seq<Byte>, t: nat, v: int)
    requires t + 4 <= |data|
    ensures Write(data, t, v)[..t] == data[..t]
  {}
}
