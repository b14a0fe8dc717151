/** The BCS string helpers of the campaign-creation transaction builder: the
    ULEB128 length encoder and `serialize`, which frames a payload with it. */
module CreateTx {
  import Uleb128
  import TypedArrays

  /** `ulebEncode`. The argument is any integer: zero is handled before the loop, and
      a negative one never enters the loop and yields an empty array. */
  method UlebEncode(num: int) returns (arr: seq<bv8>)
    ensures num == 0 ==> arr == [0]
    ensures num < 0 ==> arr == []
    ensures num >= 0 ==> arr == Uleb128.Encode(num)
  {
    var bigNum := num;
    arr := [];

    if bigNum == 0 {
      return [0];
    }

    var i := 0;
    while bigNum > 0
      invariant i == |arr|
      invariant num < 0 ==> bigNum == num && arr == []
      invariant num > 0 ==> bigNum >= 0 && Uleb128.Encode(num) == arr + Uleb128.Remaining(bigNum)
    {
      var chunk := bigNum % 128;
      ghost var done, was := arr, bigNum;
      bigNum := bigNum / 128;
      arr := arr + [chunk as bv8];
      if bigNum > 0 {
        arr := arr[i := arr[i] | 0x80];
      }
      i := i + 1;
      Uleb128.EncodeLoopStep(done, was, arr);
    }
  }

  /** `serialize` over the payload bytes: a fresh array holding the length prefix at
      offset 0 and the payload right after it. */
  method Serialize(bytes: seq<bv8>) returns (result: array<bv8>)
    ensures fresh(result)
    ensures result[..] == Uleb128.Frame(bytes)
  {
    var size := UlebEncode(|bytes|);
    result := new bv8[|size| + |bytes|](_ => 0);
    TypedArrays.SetAt(result, size, 0);
    TypedArrays.SetAt(result, bytes, |size|);
  }
}
