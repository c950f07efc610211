/** mm-memphy.c: a random-access device with its bytes and its list of free frames. */
module Devices {
  import opened Prelude
  import opened Frames

  // typedef char BYTE
  type Byte = b: int | -128 <= b < 128

  /** Frame f lies inside a device of `len` bytes. */
  predicate Inside(f: nat, len: nat) {
    256 * f + 256 <= len
  }

  /** The bytes of `dst` after frame s of `src` was copied over its frame d. */
  function CopyPage(dst: seq<Byte>, d: nat, src: seq<Byte>, s: nat): (r: seq<Byte>)
    requires Inside(d, |dst|) && Inside(s, |src|)
    ensures |r| == |dst|
  {
    dst[..256 * d] + src[256 * s..256 * s + 256] + dst[256 * d + 256..]
  }

  lemma CopyPageAt(dst: seq<Byte>, d: nat, src: seq<Byte>, s: nat, i: nat)
    requires Inside(d, |dst|) && Inside(s, |src|) && i < |dst|
    ensures 256 * d <= i < 256 * d + 256 ==> CopyPage(dst, d, src, s)[i] == src[256 * s + (i - 256 * d)]
    ensures !(256 * d <= i < 256 * d + 256) ==> CopyPage(dst, d, src, s)[i] == dst[i]
  {}

  /** The frames of a device lie inside it. */
  lemma Whole(len: nat, pagesz: nat)
    requires pagesz > 0
    ensures len / pagesz == 0 <==> len < pagesz
    ensures forall f: nat :: f < len / pagesz ==> pagesz * f + pagesz <= len
  {
    var n := len / pagesz;
    forall f: nat | f < n ensures pagesz * f + pagesz <= len {
      Fewer(pagesz, f + 1, n);
    }
    if n > 0 { Fewer(pagesz, 1, n); }
  }

  lemma {:induction false} Fewer(c: nat, a: nat, b: nat)
    requires a <= b
    ensures c * a <= c * b
  {
    if a < b { Fewer(c, a, b - 1); }
  }

  class Memphy {
    const storage: array<Byte>
    var freeFp: seq<nat>

    /** Every free frame lies inside the device. */
    predicate Valid()
      reads this
    {
      forall i :: 0 <= i < |freeFp| ==> Inside(freeFp[i], storage.Length)
    }

    // init_memphy.  The bytes malloc leaves in the storage are taken to be zero.
    constructor (maxSize: nat)
      ensures Valid() && fresh(storage) && storage.Length == maxSize
      ensures freeFp == Range(maxSize / 256)
    {
      storage := new Byte[maxSize](_ => 0);
      freeFp := [];
      new;
      var code := Format(256);
    }

    // MEMPHY_format: the list 0, 1, .., numfp - 1 is built from its head and replaces the old
    // one; a device without a whole frame keeps the list it has.
    method Format(pagesz: nat) returns (code: int)
      requires pagesz > 0
      modifies this`freeFp
      ensures code == if storage.Length < pagesz then -1 else 0
      ensures freeFp == if storage.Length < pagesz then old(freeFp) else Range(storage.Length / pagesz)
      ensures forall i :: 0 <= i < |freeFp| && code == 0 ==> pagesz * freeFp[i] + pagesz <= storage.Length
    {
      var numfp := storage.Length / pagesz;
      Whole(storage.Length, pagesz);
      if numfp <= 0 {
        return -1;
      }
      freeFp := [0];
      var iter := 1;
      while iter < numfp
        invariant 1 <= iter <= numfp && freeFp == Range(iter)
      {
        freeFp := freeFp + [iter];
        iter := iter + 1;
      }
      code := 0;
    }

    // MEMPHY_get_freefp: None stands for the return code -1.
    method GetFreeFp() returns (fpn: Option<nat>)
      modifies this`freeFp
      ensures old(freeFp) == [] ==> fpn == None && freeFp == []
      ensures old(freeFp) != [] ==> fpn == Some(old(freeFp)[0]) && freeFp == old(freeFp)[1..]
    {
      if freeFp == [] {
        return None;
      }
      fpn := Some(freeFp[0]);
      freeFp := freeFp[1..];
    }

    method Read(addr: nat) returns (value: Byte)
      requires addr < storage.Length
      ensures value == storage[addr]
    {
      value := storage[addr];
    }

    method Write(addr: nat, data: Byte)
      requires addr < storage.Length
      modifies storage
      ensures storage[..] == old(storage[..])[addr := data]
    {
      storage[addr] := data;
    }
  }

  // __swap_cp_page
  method SwapCpPage(src: Memphy, srcfpn: nat, dst: Memphy, dstfpn: nat)
    requires src.storage != dst.storage
    requires Inside(srcfpn, src.storage.Length) && Inside(dstfpn, dst.storage.Length)
    modifies dst.storage
    ensures dst.storage[..] == CopyPage(old(dst.storage[..]), dstfpn, src.storage[..], srcfpn)
  {
    ghost var before := dst.storage[..];
    var cellidx := 0;
    while cellidx < 256
      invariant 0 <= cellidx <= 256
      invariant forall i :: 0 <= i < dst.storage.Length ==>
                  dst.storage[i] == if 256 * dstfpn <= i < 256 * dstfpn + cellidx
                                    then src.storage[256 * srcfpn + (i - 256 * dstfpn)] else before[i]
    {
      var data := src.Read(256 * srcfpn + cellidx);
      dst.Write(256 * dstfpn + cellidx, data);
      assert forall i :: 0 <= i < dst.storage.Length ==> dst.storage[i] == dst.storage[..][i];
      cellidx := cellidx + 1;
    }
    forall i | 0 <= i < dst.storage.Length
      ensures dst.storage[i] == CopyPage(before, dstfpn, src.storage[..], srcfpn)[i]
    {
      CopyPageAt(before, dstfpn, src.storage[..], srcfpn, i);
    }
  }
}
