/** The one typed-array operation the serializers use. */
module TypedArrays {

  /** `TypedArray.prototype.set`: copies `src` into `dst` starting at `offset`. */
  method SetAt(dst: array<bv8>, src: seq<bv8>, offset: nat)
    requires offset + |src| <= dst.Length
    modifies dst
    ensures dst[..] == old(dst[..offset]) + src + old(dst[offset + |src|..])
  {
    for j := 0 to |src|
      invariant dst[..] == old(dst[..offset]) + src[..j] + old(dst[offset + j..])
    {
      dst[offset + j] := src[j];
      assert dst[..] == old(dst[..offset]) + src[..j + 1] + old(dst[offset + j + 1..]);
    }
  }
}
