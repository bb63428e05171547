/**
 A file as its bytes, with the operations the downloader uses: overwriting at an offset, setting
 the length, and 8-byte little-endian numbers.
 */
module ByteFile {

  type Byte = b: int | 0 <= b < 256

  type File = seq<Byte>

  /** Bytes written at an offset inside the file. */
  function WriteAt(file: File, offset: nat, bytes: seq<Byte>): (r: File)
    requires offset + |bytes| <= |file|
    ensures |r| == |file|
    ensures forall p :: 0 <= p < |file| ==> r[p] == if offset <= p < offset + |bytes| then bytes[p - offset] else file[p]
  {
    file[..offset] + bytes + file[offset + |bytes|..]
  }

  /** Cut off, or extended by zeros. */
  function SetLength(file: File, length: nat): (r: File)
    ensures |r| == length
    ensures forall p :: 0 <= p < length ==> r[p] == if p < |file| then file[p] else 0
  {
    if length <= |file| then file[..length] else file + seq(length - |file|, _ => 0)
  }

  function Power256(n: nat): nat {
    if n == 0 then 1 else 256 * Power256(n - 1)
  }

  function Encode(v: nat, n: nat): (r: seq<Byte>)
    ensures |r| == n
  {
    if n == 0 then [] else [v % 256] + Encode(v / 256, n - 1)
  }

  function Decode(bytes: seq<Byte>): nat {
    if bytes == [] then 0 else bytes[0] + 256 * Decode(bytes[1..])
  }

  lemma {:induction false} DecodeEncode(v: nat, n: nat)
    requires v < Power256(n)
    ensures Decode(Encode(v, n)) == v
  {
    if n > 0 {
      assert v / 256 < Power256(n - 1);
      DecodeEncode(v / 256, n - 1);
      assert Encode(v, n)[1..] == Encode(v / 256, n - 1);
    }
  }

  /** `BitConverter.ToInt64`: the top half of the range is negative. */
  function ToInt64(bytes: seq<Byte>): int {
    var u := Decode(bytes);
    if u < 0x8000_0000_0000_0000 then u else u - 0x1_0000_0000_0000_0000
  }

  /** `BitConverter.GetBytes` of a number that is not negative. */
  function GetBytes(v: nat): (r: seq<Byte>)
    ensures |r| == 8
  {
    Encode(v, 8)
  }

  lemma Int64RoundTrip(v: nat)
    requires v < 0x8000_0000_0000_0000
    ensures ToInt64(GetBytes(v)) == v
  {
    assert Power256(8) == 0x1_0000_0000_0000_0000 by {
      assert Power256(2) == 65536;
      assert Power256(4) == 65536 * 65536;
      assert Power256(6) == 65536 * 65536 * 65536;
    }
    DecodeEncode(v, 8);
  }

  /** The low byte comes first. */
  lemma LowByteFirst(v: nat)
    requires v < 256 * 256
    ensures GetBytes(v) == [v % 256, v / 256, 0, 0, 0, 0, 0, 0]
  {
    var w := v / 256;
    assert w % 256 == w && w / 256 == 0;
    assert GetBytes(v)[0] == v % 256 && GetBytes(v)[1..] == Encode(w, 7);
    assert Encode(w, 7) == [w] + Encode(0, 6);
    Zeros(6);
  }

  lemma {:induction false} Zeros(n: nat)
    ensures Encode(0, n) == seq(n, _ => 0)
  {
    if n > 0 {
      Zeros(n - 1);
    }
  }
}
