/** Sending several buffers as one message: one pass sizes the message, a second one fills it. */
module Gather {
  import opened Text
  import opened Totals

  function SizeOf(): seq<char> -> nat { (b: seq<char>) => |b| }

  lemma {:induction false} FlattenLength(buffers: seq<seq<char>>)
    ensures |Flatten(buffers)| == Total(SizeOf(), buffers)
  {
    if buffers != [] { FlattenLength(buffers[1..]); }
  }

  lemma PrefixFits(buffers: seq<seq<char>>, k: nat)
    requires k < |buffers|
    ensures Flatten(buffers[..k + 1]) == Flatten(buffers[..k]) + buffers[k]
    ensures Total(SizeOf(), buffers[..k + 1]) == Total(SizeOf(), buffers[..k]) + |buffers[k]|
    ensures Total(SizeOf(), buffers[..k + 1]) <= Total(SizeOf(), buffers)
  {
    assert buffers[..k + 1] == buffers[..k] + [buffers[k]];
    FlattenSnoc(buffers[..k], buffers[k]);
    TotalAppend(SizeOf(), buffers[..k], [buffers[k]]);
    TotalOne(SizeOf(), buffers[k]);
    assert buffers == buffers[..k + 1] + buffers[k + 1..];
    TotalAppend(SizeOf(), buffers[..k + 1], buffers[k + 1..]);
  }

  /** The message is the buffers joined in order; the second pass stays inside the storage the first
      one asked for and ends exactly at its end. */
  method SendBuffer(buffers: seq<seq<char>>) returns (message: array<char>)
    ensures fresh(message) && message[..] == Flatten(buffers)
  {
    var size := 0;
    for k := 0 to |buffers|
      invariant size == Total(SizeOf(), buffers[..k])
    {
      PrefixFits(buffers, k);
      size := size + |buffers[k]|;
    }
    assert buffers[..|buffers|] == buffers;

    message := new char[size];
    var pos := 0;
    for k := 0 to |buffers|
      invariant pos == Total(SizeOf(), buffers[..k]) <= size
      invariant message[..pos] == Flatten(buffers[..k])
    {
      PrefixFits(buffers, k);
      ghost var done := message[..pos];
      var from := pos;
      for i := 0 to |buffers[k]|
        invariant pos == from + i
        invariant message[..from] == done && message[from..pos] == buffers[k][..i]
      {
        message[pos] := buffers[k][i];
        pos := pos + 1;
      }
      assert buffers[k][..|buffers[k]|] == buffers[k];
      assert message[..pos] == message[..from] + message[from..pos];
    }
    FlattenLength(buffers);
    assert message[..pos] == message[..];
  }

  function Bytes(width: nat): nat -> nat { (n: nat) => n * width }

  lemma {:induction false} BytesScale(sizes: seq<nat>, width: nat)
    ensures Total(Bytes(width), sizes) == Total(Bytes(1), sizes) * width
  {
    if sizes != [] {
      BytesScale(sizes[1..], width);
      var rest := Total(Bytes(1), sizes[1..]);
      assert (sizes[0] + rest) * width == sizes[0] * width + rest * width;
    }
  }

  /** The first pass counts elements and the second copies bytes: with elements of width bytes each,
      the copy fits the storage exactly when elements are single bytes or there are none. */
  lemma CopyFitsIff(sizes: seq<nat>, width: nat)
    requires width >= 1
    ensures Total(Bytes(width), sizes) <= Total(Bytes(1), sizes)
       <==> width == 1 || forall i :: 0 <= i < |sizes| ==> sizes[i] == 0
  {
    BytesScale(sizes, width);
    TotalZero(Bytes(1), sizes);
    ScaledFitsIff(Total(Bytes(1), sizes), width);
  }

  lemma ScaledFitsIff(total: nat, width: nat)
    requires width >= 1
    ensures total * width <= total <==> width == 1 || total == 0
  {
    if width > 1 && total > 0 {
      assert total * width == total + total * (width - 1);
    }
  }
}
