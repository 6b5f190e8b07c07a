/** Types and byte-order helpers shared by the models. */
module Common {
  datatype Option<+T> = None | Some(value: T)

  type byte = x: int | 0 <= x < 256

  type Bytes = seq<byte>

  /** Names a peer. */
  type PeerId = nat

  /** The sequence with x appended. */
  function Snoc<T>(s: seq<T>, x: T): (r: seq<T>)
    ensures |r| == |s| + 1 && r[|s|] == x && forall j :: 0 <= j < |s| ==> r[j] == s[j]
  {
    seq(|s| + 1, j requires 0 <= j <= |s| => if j < |s| then s[j] else x)
  }

  lemma Regroup<T>(a: seq<T>, b: seq<T>, c: seq<T>)
    ensures a + (b + c) == a + b + c
  {}

  lemma PlusSnoc<T>(a: seq<T>, b: seq<T>, x: T)
    ensures a + Snoc(b, x) == Snoc(a + b, x)
  {}

  // ----- little-endian 16-bit numbers

  const UINT16_COUNT: int := 0x1_0000

  function Low(n: nat): byte { n % 256 }

  function High(n: nat): byte
    requires n < UINT16_COUNT
  {
    n / 256
  }

  function Le16(low: byte, high: byte): (n: nat)
    ensures n < UINT16_COUNT
  {
    low as int + 256 * high as int
  }

  lemma Le16RoundTrip(n: nat)
    requires n < UINT16_COUNT
    ensures Le16(Low(n), High(n)) == n
  {}
}
