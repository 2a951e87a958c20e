// Octets and the numbers read from them, shared by the wire parsers.
module Wire {

  type Octet = b: int | 0 <= b < 256
  type Bytes = seq<Octet>

  /** The 16-bit number in network byte order at an offset. */
  function U16(data: Bytes, at: nat): (n: nat)
    requires at + 2 <= |data|
    ensures n < 0x1_0000
  {
    var high: int, low: int := data[at], data[at + 1];
    256 * high + low
  }

  /** byte(n>>8), byte(n): the low 16 bits of a number, in network byte order. */
  function Put16(n: nat): (code: Bytes)
    ensures |code| == 2
    ensures U16(code, 0) == n % 0x1_0000
  {
    [(n / 256 % 256) as Octet, (n % 256) as Octet]
  }

  function Min(a: nat, b: nat): nat {
    if a <= b then a else b
  }

  function Zeros(n: nat): (z: Bytes)
    ensures |z| == n && forall i :: 0 <= i < n ==> z[i] == 0
  {
    seq(n, _ => 0)
  }

  /** A number written somewhere in a packet is read back from there. */
  lemma U16At(data: Bytes, at: nat, code: Bytes)
    requires |code| == 2 && at + 2 <= |data| && data[at..at + 2] == code
    ensures U16(data, at) == U16(code, 0)
  {
    assert data[at..at + 2][0] == data[at] && data[at..at + 2][1] == data[at + 1];
  }

  lemma PutRead(data: Bytes, at: nat)
    requires at + 2 <= |data|
    ensures Put16(U16(data, at)) == data[at..at + 2]
  {
    var high: int, low: int := data[at], data[at + 1];
    assert (256 * high + low) / 256 == high;
  }
}
