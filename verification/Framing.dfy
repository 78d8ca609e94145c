/** Frames on a stream: a control item and the payload bytes it announces.
    The control ring holds the items, the payload ring the bytes end to end;
    nothing but the lengths in the items says where one payload stops. */
module Framing {

  type byte = b: int | 0 <= b < 256

  /** `StreamEgress` and `StreamIngress`; `length` is the byte count of the payload. */
  datatype ControlItem =
    | Egress(length: nat)
    | Ingress(length: nat, sessionId: int, arrival: int, finished: int)

  datatype Frame = Frame(item: ControlItem, payload: seq<byte>) {
    predicate Valid() {
      item.length == |payload|
    }
  }

  predicate AllValid(fs: seq<Frame>) {
    forall i :: 0 <= i < |fs| ==> fs[i].Valid()
  }

  function Items(fs: seq<Frame>): (r: seq<ControlItem>)
    ensures |r| == |fs|
  {
    seq(|fs|, i requires 0 <= i < |fs| => fs[i].item)
  }

  function Bytes(fs: seq<Frame>): seq<byte> {
    if fs == [] then [] else fs[0].payload + Bytes(fs[1..])
  }

  function SumLen(items: seq<ControlItem>): nat {
    if items == [] then 0 else items[0].length + SumLen(items[1..])
  }

  /** The items and the bytes agree on where the last payload ends. */
  predicate Framed(items: seq<ControlItem>, bytes: seq<byte>) {
    SumLen(items) == |bytes|
  }

  /** Cuts the bytes into the payloads the items announce. */
  function Split(items: seq<ControlItem>, bytes: seq<byte>): (fs: seq<Frame>)
    requires SumLen(items) <= |bytes|
    ensures |fs| == |items| && AllValid(fs)
  {
    if items == [] then []
    else
      [Frame(items[0], bytes[..items[0].length])] + Split(items[1..], bytes[items[0].length..])
  }

  /** The greedy scan of `copy_items_and_payloads`: take items in order while one
      more fits both the item room and the byte room. */
  function FitCount(items: seq<ControlItem>, itemRoom: nat, byteRoom: nat): (k: nat)
    ensures k <= |items| && k <= itemRoom
  {
    if items == [] || itemRoom == 0 || byteRoom < items[0].length then 0
    else 1 + FitCount(items[1..], itemRoom - 1, byteRoom - items[0].length)
  }

  // ---- sums and concatenations ----

  lemma {:induction false} SumLenAppend(a: seq<ControlItem>, b: seq<ControlItem>)
    ensures SumLen(a + b) == SumLen(a) + SumLen(b)
  {
    if a == [] {
      assert a + b == b;
    } else {
      assert (a + b)[1..] == a[1..] + b;
      SumLenAppend(a[1..], b);
    }
  }

  lemma SumLenNone(items: seq<ControlItem>)
    ensures SumLen(items[..0]) == 0
  {
  }

  lemma SumLenSplit(items: seq<ControlItem>, k: nat)
    requires k <= |items|
    ensures SumLen(items) == SumLen(items[..k]) + SumLen(items[k..])
  {
    assert items == items[..k] + items[k..];
    SumLenAppend(items[..k], items[k..]);
  }

  lemma SumLenNext(items: seq<ControlItem>, k: nat)
    requires k < |items|
    ensures SumLen(items[..k + 1]) == SumLen(items[..k]) + items[k].length
  {
    assert items[..k + 1] == items[..k] + [items[k]];
    SumLenAppend(items[..k], [items[k]]);
  }

  lemma SumLenMonotone(items: seq<ControlItem>, j: nat, k: nat)
    requires j <= k <= |items|
    ensures SumLen(items[..j]) <= SumLen(items[..k])
  {
    assert items[..k][..j] == items[..j];
    SumLenSplit(items[..k], j);
  }

  lemma {:induction false} BytesAppend(a: seq<Frame>, b: seq<Frame>)
    ensures Bytes(a + b) == Bytes(a) + Bytes(b)
  {
    if a == [] {
      assert a + b == b;
    } else {
      assert (a + b)[1..] == a[1..] + b;
      BytesAppend(a[1..], b);
    }
  }

  lemma BytesOne(f: Frame)
    ensures Bytes([f]) == f.payload
  {
    assert [f][1..] == [];
  }

  lemma {:induction false} BytesLength(fs: seq<Frame>)
    requires AllValid(fs)
    ensures |Bytes(fs)| == SumLen(Items(fs))
  {
    if fs == [] {
    } else {
      assert Items(fs)[1..] == Items(fs[1..]);
      BytesLength(fs[1..]);
    }
  }

  /** Where the payload of frame `n` starts. */
  function Offset(fs: seq<Frame>, n: nat): nat
    requires n <= |fs|
  {
    |Bytes(fs[..n])|
  }

  /** The bytes between two offsets are the payloads of the frames between. */
  lemma OffsetStep(fs: seq<Frame>, n: nat, k: nat)
    requires AllValid(fs) && n + k <= |fs|
    ensures Offset(fs, n + k) == Offset(fs, n) + SumLen(Items(fs)[n..n + k]) <= |Bytes(fs)|
    ensures Bytes(fs)[Offset(fs, n)..Offset(fs, n + k)] == Bytes(fs[n..n + k])
    ensures Bytes(fs)[Offset(fs, n)..] == Bytes(fs[n..])
  {
    hide Bytes, SumLen, Items, AllValid;
    var upTo, mid := fs[..n + k], fs[n..n + k];
    OffsetSplit(fs, n);
    OffsetSplit(fs, n + k);
    OffsetSplit(upTo, n);
    assert upTo[..n] == fs[..n] && upTo[n..] == mid;
    BytesLength(mid) by {
      assert AllValid(mid) by { SliceValid(fs, n, n + k); }
    }
    ItemsSlice(fs, n, n + k);
    Between(Bytes(fs[..n]), Bytes(mid), Bytes(fs[n + k..]));
  }

  lemma SliceValid(fs: seq<Frame>, from: nat, to: nat)
    requires AllValid(fs) && from <= to <= |fs|
    ensures AllValid(fs[from..to])
  {
  }

  lemma OffsetSplit(fs: seq<Frame>, n: nat)
    requires n <= |fs|
    ensures Bytes(fs) == Bytes(fs[..n]) + Bytes(fs[n..])
  {
    assert fs == fs[..n] + fs[n..];
    BytesAppend(fs[..n], fs[n..]);
  }

  lemma Between<T>(a: seq<T>, b: seq<T>, c: seq<T>)
    ensures (a + b + c)[|a|..|a| + |b|] == b
  {
  }

  lemma ItemsSlice(fs: seq<Frame>, from: nat, to: nat)
    requires from <= to <= |fs|
    ensures Items(fs)[from..to] == Items(fs[from..to])
  {
  }

  lemma HeadOffset(fs: seq<Frame>, n: nat)
    requires AllValid(fs) && n < |fs|
    ensures Offset(fs, n + 1) == Offset(fs, n) + |fs[n].payload|
  {
    hide Bytes;
    assert fs[..n + 1] == fs[..n] + [fs[n]];
    BytesAppend(fs[..n], [fs[n]]);
    BytesOne(fs[n]);
  }

  // ---- cutting and joining are inverse ----

  /** Whatever valid frames were joined, the lengths alone recover them, even with more bytes behind. */
  lemma {:induction false} SplitJoined(fs: seq<Frame>, tail: seq<byte>)
    requires AllValid(fs)
    ensures SumLen(Items(fs)) <= |Bytes(fs) + tail|
    ensures Split(Items(fs), Bytes(fs) + tail) == fs
  {
    BytesLength(fs);
    if fs == [] {
    } else {
      var rest, n := fs[1..], fs[0].item.length;
      var bytes := Bytes(fs) + tail;
      assert Items(fs)[1..] == Items(rest);
      assert bytes[..n] == fs[0].payload;
      assert bytes[n..] == Bytes(rest) + tail;
      SplitJoined(rest, tail);
    }
  }

  lemma FrontFrame(f: Frame, fs: seq<Frame>)
    ensures Items([f] + fs) == [f.item] + Items(fs) && Bytes([f] + fs) == f.payload + Bytes(fs)
  {
    assert ([f] + fs)[1..] == fs;
  }

  lemma {:induction false} JoinSplit(items: seq<ControlItem>, bytes: seq<byte>)
    requires SumLen(items) <= |bytes|
    ensures Items(Split(items, bytes)) == items
    ensures Bytes(Split(items, bytes)) == bytes[..SumLen(items)]
  {
    if items == [] {
    } else {
      var n := items[0].length;
      JoinSplit(items[1..], bytes[n..]);
      FrontFrame(Frame(items[0], bytes[..n]), Split(items[1..], bytes[n..]));
      assert bytes[..n] + bytes[n..][..SumLen(items[1..])] == bytes[..SumLen(items)];
    }
  }

  // ---- the greedy scan takes the largest prefix ----

  predicate Fits(items: seq<ControlItem>, k: nat, itemRoom: nat, byteRoom: nat)
    requires k <= |items|
  {
    k <= itemRoom && SumLen(items[..k]) <= byteRoom
  }

  /** A prefix fits exactly when it is no longer than the one the scan takes. */
  lemma {:induction false} FitCountIsLargest(items: seq<ControlItem>, itemRoom: nat, byteRoom: nat, k: nat)
    requires k <= |items|
    ensures Fits(items, k, itemRoom, byteRoom) <==> k <= FitCount(items, itemRoom, byteRoom)
  {
    if k == 0 {
    } else {
      assert items[..k][1..] == items[1..][..k - 1];
      if itemRoom != 0 && items[0].length <= byteRoom {
        FitCountIsLargest(items[1..], itemRoom - 1, byteRoom - items[0].length, k - 1);
      }
    }
  }

  /** One loop iteration of the scan: how the count found so far decides the next item. */
  lemma FitCountStep(items: seq<ControlItem>, itemRoom: nat, byteRoom: nat, k: nat)
    requires k <= |items| && Fits(items, k, itemRoom, byteRoom)
    ensures k <= FitCount(items, itemRoom, byteRoom)
    ensures (k == |items| || k == itemRoom || byteRoom < SumLen(items[..k]) + items[k].length)
            <==> k == FitCount(items, itemRoom, byteRoom)
  {
    FitCountIsLargest(items, itemRoom, byteRoom, k);
    if k < |items| {
      FitCountIsLargest(items, itemRoom, byteRoom, k + 1);
      SumLenNext(items, k);
    }
  }
}
