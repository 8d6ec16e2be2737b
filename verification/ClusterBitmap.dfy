/**
  The 16384-bit slot bitmap of a Redis Cluster node, bit k of byte j standing for slot 8j + k.
 */
module ClusterBitmap {

  function Mask(k: nat): bv8
    requires k < 8
  {
    1 << k
  }

  predicate TestByte(x: bv8, k: nat)
    requires k < 8
  {
    x & Mask(k) != 0
  }

  lemma SetOneBit(x: bv8, j: nat, k: nat)
    requires j < 8 && k < 8
    ensures TestByte(x | Mask(j), k) <==> j == k || TestByte(x, k)
  {
  }

  lemma ClearOneBit(x: bv8, j: nat, k: nat)
    requires j < 8 && k < 8
    ensures TestByte(x & !Mask(j), k) <==> j != k && TestByte(x, k)
  {
  }

  method SetInByte(x: bv8, j: nat) returns (r: bv8)
    requires j < 8
    ensures forall k: nat | k < 8 :: TestByte(r, k) <==> k == j || TestByte(x, k)
  {
    r := x | (1 << j);
    forall k: nat | k < 8
      ensures TestByte(r, k) <==> k == j || TestByte(x, k)
    {
      SetOneBit(x, j, k);
    }
  }

  method ClearInByte(x: bv8, j: nat) returns (r: bv8)
    requires j < 8
    ensures forall k: nat | k < 8 :: TestByte(r, k) <==> k != j && TestByte(x, k)
  {
    r := x & !(1 << j);
    forall k: nat | k < 8
      ensures TestByte(r, k) <==> k != j && TestByte(x, k)
    {
      ClearOneBit(x, j, k);
    }
  }

  class Bitmap {
    const bytes: array<bv8>

    constructor (size: nat)
      ensures fresh(bytes) && bytes.Length == size && Contents() == {}
    {
      var zero := new bv8[size](_ => 0);
      bytes := zero;
    }

    predicate Has(slot: nat)
      requires slot / 8 < bytes.Length
      reads bytes
    {
      TestByte(bytes[slot / 8], slot % 8)
    }

    /** The slots whose bit is one. */
    ghost function Contents(): set<nat>
      reads bytes
    {
      set k: nat | k / 8 < bytes.Length && k < 8 * bytes.Length && Has(k)
    }

    method TestBit(slot: nat) returns (on: bool)
      requires slot / 8 < bytes.Length
      ensures on <==> slot in Contents()
    {
      on := bytes[slot / 8] & (1 << (slot % 8)) != 0;
    }

    method SetBit(slot: nat)
      requires slot / 8 < bytes.Length
      modifies bytes
      ensures Contents() == old(Contents()) + {slot}
    {
      var byte := SetInByte(bytes[slot / 8], slot % 8);
      bytes[slot / 8] := byte;
      forall k: nat | k < 8 * bytes.Length
        ensures Has(k) <==> k == slot || old(Has(k))
      {
        assert k / 8 == slot / 8 ==> (k == slot <==> k % 8 == slot % 8);
      }
    }

    method ClearBit(slot: nat)
      requires slot / 8 < bytes.Length
      modifies bytes
      ensures Contents() == old(Contents()) - {slot}
    {
      var byte := ClearInByte(bytes[slot / 8], slot % 8);
      bytes[slot / 8] := byte;
      forall k: nat | k < 8 * bytes.Length
        ensures Has(k) <==> k != slot && old(Has(k))
      {
        assert k / 8 == slot / 8 ==> (k == slot <==> k % 8 == slot % 8);
      }
    }
  }
}
