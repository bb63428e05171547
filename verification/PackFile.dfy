/**
 How go/gowork/mypkg/mypkg.go hides the beginning of a file and brings it back: its bytes are combined
 with keys that `main` draws from a generator.
 */
module PackFile {
  import opened Int32
  import opened CompatRandom
  import opened RandomRange

  type Byte = b: int | 0 <= b < 256

  /** The conversion of an int32 to a byte. */
  function ToByte(num: int): Byte { num % 256 }

  function KeysFrom(seed: int, n: nat): (keys: seq<Byte>)
    ensures |keys| == n
  {
    seq(n, k requires 0 <= k < n => ToByte(After(seed, n)[275 + k]))
  }

  /** The k-th of n numbers that are drawn: that of the recurrence, in [0, MaxInt32). */
  ghost predicate IsDraw(num: int, seed: int, n: nat, k: nat)
    requires k < n
  {
    num == After(seed, n)[275 + k] && DrawnAt(After(seed, n), 275 + k)
  }

  ghost predicate IsLastByte(key: Byte, num: int) {
    (num - key) % 256 == 0
  }

  lemma LastBytes(keys: seq<Byte>, drawn: seq<int>)
    requires |keys| == |drawn| && forall k :: 0 <= k < |keys| ==> keys[k] == ToByte(drawn[k])
    ensures forall k :: 0 <= k < |keys| ==> IsLastByte(keys[k], drawn[k])
  {
  }

  /** The loop of `main`: every number that `Next` returns is the next one and in range, and its last byte is a key. */
  method FillKeys(seed: int, keys: array<Byte>) returns (ghost drawn: seq<int>)
    requires IsInt32(seed)
    modifies keys
    ensures |drawn| == keys.Length && forall k :: 0 <= k < |drawn| ==> IsDraw(drawn[k], seed, |drawn|, k)
    ensures keys[..] == KeysFrom(seed, keys.Length)
    ensures forall k :: 0 <= k < keys.Length ==> IsLastByte(keys[k], drawn[k])
  {
    var random := new MyRandom(seed);
    drawn := [];
    ghost var n := keys.Length;
    for i := 0 to keys.Length
      invariant fresh(random) && fresh(random.seedArray) && random.Valid()
      invariant random.history == After(seed, i) && drawn == random.history[275..]
      invariant forall k :: 0 <= k < i ==> keys[k] == ToByte(drawn[k])
    {
      var num := random.Next();
      keys[i] := ToByte(num);
      drawn := drawn + [num];
    }
    RangeAfter(seed, n);
    LastBytes(keys[..], drawn);
  }

  // ----- exclusive or -----

  /** Bit by bit. */
  function Xor(a: nat, b: nat): nat {
    if a == 0 && b == 0 then 0 else 2 * Xor(a / 2, b / 2) + (a + b) % 2
  }

  lemma XorParts(a: nat, b: nat)
    ensures Xor(a, b) / 2 == Xor(a / 2, b / 2) && Xor(a, b) % 2 == (a + b) % 2
  {
  }

  lemma {:induction false} XorTwice(a: nat, b: nat)
    ensures Xor(Xor(a, b), b) == a
    decreases a + b
  {
    if a != 0 || b != 0 {
      var x := Xor(a, b);
      XorTwice(a / 2, b / 2);
      XorParts(a, b);
      XorParts(x, b);
      SameParity(a, b, x, Xor(x, b));
    }
  }

  lemma SameParity(a: nat, b: nat, x: nat, y: nat)
    requires x % 2 == (a + b) % 2 && y % 2 == (x + b) % 2 && y / 2 == a / 2
    ensures y == a
  {
  }

  lemma {:induction false} XorNone(a: nat)
    ensures Xor(a, 0) == a
  {
    if a != 0 {
      XorNone(a / 2);
    }
  }

  /** The result has no more bits than the arguments. */
  lemma {:induction false} XorBelow(a: nat, b: nat, bits: nat)
    requires a < Pow2(bits) && b < Pow2(bits)
    ensures Xor(a, b) < Pow2(bits)
  {
    if a != 0 || b != 0 {
      XorBelow(a / 2, b / 2, bits - 1);
    }
  }

  function Pow2(bits: nat): nat { if bits == 0 then 1 else 2 * Pow2(bits - 1) }

  function XorByte(a: Byte, b: Byte): Byte {
    ByteFits(a, b);
    Xor(a, b)
  }

  lemma ByteFits(a: Byte, b: Byte)
    ensures Xor(a, b) < 256
  {
    assert Pow2(8) == 256;
    XorBelow(a, b, 8);
  }

  // ----- the file -----

  /** The file with its first bytes combined with the keys. */
  function Xored(file: seq<Byte>, keys: seq<Byte>): (r: seq<Byte>)
    ensures |r| == |file|
  {
    seq(|file|, k requires 0 <= k < |file| => if k < |keys| then XorByte(file[k], keys[k]) else file[k])
  }

  /** As much of the file as fits. */
  method ReadAt(file: array<Byte>, buffer: array<Byte>) returns (n: nat)
    requires file != buffer
    modifies buffer
    ensures n <= file.Length && n <= buffer.Length && (n == file.Length || n == buffer.Length)
    ensures forall k :: 0 <= k < n ==> buffer[k] == file[k]
  {
    n := if file.Length < buffer.Length then file.Length else buffer.Length;
    for i := 0 to n
      invariant forall k :: 0 <= k < i ==> buffer[k] == file[k]
    {
      buffer[i] := file[i];
    }
  }

  method WriteAt(file: array<Byte>, buffer: array<Byte>, n: nat)
    requires file != buffer && n <= file.Length && n <= buffer.Length
    modifies file
    ensures forall k :: 0 <= k < file.Length ==> file[k] == if k < n then buffer[k] else old(file[k])
  {
    for i := 0 to n
      invariant forall k :: 0 <= k < file.Length ==> file[k] == if k < i then buffer[k] else old(file[k])
    {
      file[i] := buffer[i];
    }
  }

  method Combine(buffer: array<Byte>, keys: array<Byte>, n: nat)
    requires buffer != keys && n <= buffer.Length && n <= keys.Length
    modifies buffer
    ensures forall k :: 0 <= k < n ==> buffer[k] == XorByte(old(buffer[k]), keys[k])
  {
    for i := 0 to n
      invariant forall k :: 0 <= k < n ==> buffer[k] == if k < i then XorByte(old(buffer[k]), keys[k]) else old(buffer[k])
    {
      buffer[i] := XorByte(buffer[i], keys[i]);
    }
  }

  /** `_XOR_File`: the first bytes are read into a buffer, combined in place, and written back. */
  method XorFile(file: array<Byte>, keys: array<Byte>)
    requires file != keys
    modifies file
    ensures file[..] == Xored(old(file[..]), keys[..])
  {
    var buffer := new Byte[keys.Length](_ => 0);
    var n := ReadAt(file, buffer);
    Combine(buffer, keys, n);
    WriteAt(file, buffer, n);
  }

  /** Hiding a file twice with the same keys gives the file back. */
  lemma XoredTwice(file: seq<Byte>, keys: seq<Byte>)
    ensures Xored(Xored(file, keys), keys) == file
  {
    forall k | 0 <= k < |file|
      ensures Xored(Xored(file, keys), keys)[k] == file[k]
    {
      if k < |keys| {
        XorTwice(file[k], keys[k]);
      }
    }
  }

  /** Hiding changes every byte whose key is not 0, and no other. */
  lemma HiddenBytes(file: seq<Byte>, keys: seq<Byte>, k: nat)
    requires k < |file|
    ensures Xored(file, keys)[k] != file[k] <==> k < |keys| && keys[k] != 0
  {
    if k < |keys| {
      XorTwice(file[k], keys[k]);
      XorTwice(keys[k], file[k]);
      XorSwap(file[k], keys[k]);
      XorSelf(file[k]);
      XorNone(file[k]);
    }
  }

  lemma {:induction false} XorSwap(a: nat, b: nat)
    ensures Xor(a, b) == Xor(b, a)
    decreases a + b
  {
    if a != 0 || b != 0 {
      XorSwap(a / 2, b / 2);
    }
  }

  lemma {:induction false} XorSelf(a: nat)
    ensures Xor(a, a) == 0
  {
    if a != 0 {
      XorSelf(a / 2);
    }
  }

  /** Two runs of the program, one that hides a file and a later one that brings it back, each with keys of its own. */
  method PackAndUnpack(file: array<Byte>, seed: int, size: nat)
    requires IsInt32(seed)
    modifies file
    ensures file[..] == old(file[..])
  {
    ghost var before := file[..];
    var keys := new Byte[size](_ => 0);
    ghost var drawn := FillKeys(seed, keys);
    XorFile(file, keys);
    var again := new Byte[size](_ => 0);
    drawn := FillKeys(seed, again);
    XorFile(file, again);
    XoredTwice(before, KeysFrom(seed, size));
  }
}
