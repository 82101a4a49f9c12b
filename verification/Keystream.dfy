/** The repeating-key XOR of the cipher device. */
module Keystream {

  type Byte = bv8

  function KeyByte(key: seq<Byte>, off: nat): Byte
    requires key != []
  {
    key[off % |key|]
  }

  function Mix(x: Byte, k: Byte): Byte { x ^ k }

  lemma {:induction false} MixCancels(x: Byte, k: Byte)
    ensures Mix(Mix(x, k), k) == x
  {
  }

  /** data encrypted, or decrypted, with the keystream from offset off on. */
  function Xor(data: seq<Byte>, key: seq<Byte>, off: nat): (r: seq<Byte>)
    requires key != []
    ensures |r| == |data|
  {
    if data == [] then [] else [Mix(data[0], KeyByte(key, off))] + Xor(data[1..], key, off + 1)
  }

  /** Byte i of the result is the exclusive or of byte i of the data and byte
      (off + i) mod |key| of the key. */
  lemma {:induction false} XorAt(data: seq<Byte>, key: seq<Byte>, off: nat, i: nat)
    requires key != [] && i < |data|
    ensures Xor(data, key, off)[i] == Mix(data[i], KeyByte(key, off + i))
    ensures Xor(data, key, off)[i] == data[i] ^ key[(off + i) % |key|]
  {
    if i > 0 {
      XorAt(data[1..], key, off + 1, i - 1);
    }
  }

  lemma {:induction false} XorConcat(a: seq<Byte>, b: seq<Byte>, key: seq<Byte>, off: nat)
    requires key != []
    ensures Xor(a + b, key, off) == Xor(a, key, off) + Xor(b, key, off + |a|)
  {
    if a == [] {
      assert a + b == b;
    } else {
      assert (a + b)[1..] == a[1..] + b;
      XorConcat(a[1..], b, key, off + 1);
    }
  }

  lemma {:induction false} XorSplit(data: seq<Byte>, key: seq<Byte>, off: nat, n: nat)
    requires key != [] && n <= |data|
    ensures Xor(data, key, off) == Xor(data[..n], key, off) + Xor(data[n..], key, off + n)
  {
    XorConcat(data[..n], data[n..], key, off);
    assert data == data[..n] + data[n..];
  }

  lemma {:induction false} XorCancels(data: seq<Byte>, key: seq<Byte>, off: nat)
    requires key != []
    ensures Xor(Xor(data, key, off), key, off) == data
  {
    if data != [] {
      MixCancels(data[0], KeyByte(key, off));
      XorCancels(data[1..], key, off + 1);
      assert Xor(data, key, off)[1..] == Xor(data[1..], key, off + 1);
    }
  }

  function Joined(chunks: seq<seq<Byte>>): seq<Byte> {
    if chunks == [] then [] else chunks[0] + Joined(chunks[1..])
  }

  /** Every chunk continues the keystream where the one before it stopped. */
  function XorChunks(chunks: seq<seq<Byte>>, key: seq<Byte>, off: nat): seq<Byte>
    requires key != []
  {
    if chunks == [] then []
    else Xor(chunks[0], key, off) + XorChunks(chunks[1..], key, off + |chunks[0]|)
  }

  /** Chunk by chunk is the same as all at once. */
  lemma {:induction false} ChunkingIsInvisible(chunks: seq<seq<Byte>>, key: seq<Byte>, off: nat)
    requires key != []
    ensures XorChunks(chunks, key, off) == Xor(Joined(chunks), key, off)
  {
    if chunks == [] {
      assert Xor([], key, off) == [];
    } else {
      ChunkingIsInvisible(chunks[1..], key, off + |chunks[0]|);
      XorConcat(chunks[0], Joined(chunks[1..]), key, off);
    }
  }

  /** What was encrypted in some chunks is decrypted in any others. */
  lemma {:induction false} RechunkingDecrypts(written: seq<seq<Byte>>, read: seq<seq<Byte>>, key: seq<Byte>, off: nat)
    requires key != [] && Joined(read) == XorChunks(written, key, off)
    ensures XorChunks(read, key, off) == Joined(written)
  {
    ChunkingIsInvisible(written, key, off);
    ChunkingIsInvisible(read, key, off);
    XorCancels(Joined(written), key, off);
  }

  predicate SameKeyByte(key: seq<Byte>, a: nat, b: nat, i: nat)
    requires key != []
  {
    key[(a + i) % |key|] == key[(b + i) % |key|]
  }

  /** For n bytes, the keystream from a on is the one from b on. */
  ghost predicate Aligned(key: seq<Byte>, a: nat, b: nat, n: nat)
    requires key != []
  {
    forall i :: 0 <= i < n ==> SameKeyByte(key, a, b, i)
  }

  lemma {:induction false} MixDiffers(x: Byte, k: Byte, l: Byte)
    requires k != l
    ensures Mix(Mix(x, k), l) != x
  {
    assert (x ^ k) ^ l == x ==> k ^ l == 0;
    assert k ^ l == 0 ==> k == l;
  }

  /** A different offset decrypts exactly where both keystreams agree. */
  lemma {:induction false} DecryptsExactlyWhenAligned(data: seq<Byte>, key: seq<Byte>, used: nat, assumed: nat)
    requires key != []
    ensures Xor(Xor(data, key, used), key, assumed) == data <==> Aligned(key, used, assumed, |data|)
  {
    var twice := Xor(Xor(data, key, used), key, assumed);
    forall i | 0 <= i < |data|
      ensures twice[i] == data[i] <==> SameKeyByte(key, used, assumed, i)
    {
      XorAt(data, key, used, i);
      XorAt(Xor(data, key, used), key, assumed, i);
      if SameKeyByte(key, used, assumed, i) {
        MixCancels(data[i], KeyByte(key, used + i));
      } else {
        MixDiffers(data[i], KeyByte(key, used + i), KeyByte(key, assumed + i));
      }
    }
    if Aligned(key, used, assumed, |data|) {
      assert twice == data;
    } else {
      var i :| 0 <= i < |data| && !SameKeyByte(key, used, assumed, i);
      assert twice[i] != data[i];
    }
  }

  /** cipher_xor_buffer: in place, advancing the key offset. */
  method XorBuffer(key: array<Byte>, keyLength: nat, data: array<Byte>, len: nat, keyoff: nat) returns (off: nat)
    requires 0 < keyLength <= key.Length && len <= data.Length && key != data
    modifies data
    ensures off == keyoff + len
    ensures data[..len] == Xor(old(data[..len]), key[..keyLength], keyoff)
    ensures forall j :: 0 <= j < len ==> data[j] == old(data[j]) ^ key[(keyoff + j) % keyLength]
    ensures data[len..] == old(data[len..])
  {
    off := keyoff;
    ghost var k, whole := key[..keyLength], data[..len];
    for i := 0 to len
      invariant off == keyoff + i && key[..keyLength] == k
      invariant forall j :: 0 <= j < i ==> IsMixed(data[j], whole, k, keyoff, j)
      invariant forall j :: i <= j < data.Length ==> data[j] == old(data[j])
    {
      data[i] := data[i] ^ key[off % keyLength];
      off := off + 1;
    }
    MixedIsXor(data[..len], whole, k, keyoff);
    assert forall j :: 0 <= j < len ==> IsMixed(data[j], whole, k, keyoff, j);
  }

  predicate IsMixed(x: Byte, data: seq<Byte>, key: seq<Byte>, off: nat, i: int)
    requires key != [] && 0 <= i < |data|
  {
    x == data[i] ^ key[(off + i) % |key|]
  }

  lemma {:induction false} MixedIsXor(r: seq<Byte>, data: seq<Byte>, key: seq<Byte>, off: nat)
    requires key != [] && |r| == |data| && forall i :: 0 <= i < |r| ==> IsMixed(r[i], data, key, off, i)
    ensures r == Xor(data, key, off)
  {
    forall i | 0 <= i < |r| ensures r[i] == Xor(data, key, off)[i] {
      XorAt(data, key, off, i);
      assert IsMixed(r[i], data, key, off, i);
    }
  }
}
