/**
 * The signed variable-length integer codec of Go's `encoding/binary`
 * (`PutVarint`, `Varint`), which is the ZigZag plus base-128 varint of the
 * Protocol Buffers wire format ("Base 128 Varints" and "Signed Integers"
 * in the Protocol Buffers encoding guide).
 */
module Binary {
  import opened GoInts

  /** `binary.MaxVarintLen64`: no 64-bit value needs more bytes than this. */
  const MaxVarintLen64: nat := 10

  /** ZigZag: 0, -1, 1, -2, 2, ... become 0, 1, 2, 3, 4, ... */
  function ZigZag(x: Int64): (u: Uint64)
    ensures UnZigZag(u) == x
    ensures (u % 2 == 0) == (x >= 0)
  {
    if x >= 0 then 2 * x else -2 * x - 1
  }

  /** The inverse of ZigZag, as `Varint` applies it to the decoded `uint64`. */
  function UnZigZag(u: Uint64): (x: Int64)
    ensures (x >= 0) == (u % 2 == 0)
    ensures x >= 0 ==> u == 2 * x
    ensures x < 0 ==> u == -2 * x - 1
  {
    if u % 2 == 0 then u / 2 else -(u / 2) - 1
  }

  lemma ZigZagUnZigZag(u: Uint64)
    ensures ZigZag(UnZigZag(u)) == u
  {
  }

  /**
   * The bytes `PutUvarint` writes for `u`: seven bits per byte, least
   * significant group first, the high bit set on every byte but the last.
   */
  function UvarintBytes(u: nat): (bs: seq<Byte>)
    decreases u
  {
    if u < 0x80 then [u] else [u % 0x80 + 0x80] + UvarintBytes(u / 0x80)
  }

  /** Bytes with the continuation bit set everywhere but at the end. */
  ghost predicate WellTerminated(bs: seq<Byte>)
  {
    && |bs| >= 1
    && bs[|bs| - 1] < 0x80
    && forall j :: 0 <= j < |bs| - 1 ==> bs[j] >= 0x80
  }

  lemma {:induction false} UvarintBytesTerminated(u: nat)
    ensures WellTerminated(UvarintBytes(u))
    decreases u
  {
    if u >= 0x80 {
      UvarintBytesTerminated(u / 0x80);
    }
  }

  /**
   * Limit(i) bounds the value still to be encoded once i bytes of a 64-bit
   * value are written: 2^(64 - 7 i) for i <= 9, so Limit(0) == 2^64 and
   * Limit(9) == 2 (the tenth byte may only carry the top bit).
   */
  function Limit(i: nat): (l: nat)
    ensures l >= 2 && (i < 9 ==> l >= 0x100)
    decreases 10 - i
  {
    if i >= 9 then 2 else 0x80 * Limit(i + 1)
  }

  lemma LimitOfFirstByte()
    ensures Limit(0) == TWO_64
  {
    assert Limit(9) == 2;
    assert Limit(8) == 0x100;
    assert Limit(7) == 0x8000;
    assert Limit(6) == 0x40_0000;
    assert Limit(5) == 0x2000_0000;
    assert Limit(4) == 0x10_0000_0000;
    assert Limit(3) == 0x800_0000_0000;
    assert Limit(2) == 0x4_0000_0000_0000;
    assert Limit(1) == 0x200_0000_0000_0000;
  }

  /**
   * A value below Limit(i), encoded from index i, ends by index 9; if it
   * needs the tenth byte, that byte is 0 or 1.
   */
  lemma {:induction false} EncodingFits(u: nat, i: nat)
    requires i <= 9 && u < Limit(i)
    ensures i + |UvarintBytes(u)| <= MaxVarintLen64
    ensures i + |UvarintBytes(u)| == MaxVarintLen64 ==> UvarintBytes(u)[|UvarintBytes(u)| - 1] <= 1
    decreases 10 - i
  {
    if u >= 0x80 {
      assert i < 9;
      EncodingFits(u / 0x80, i + 1);
    }
  }

  /** The bytes `PutVarint` writes for `x`. */
  function VarintBytes(x: Int64): (bs: seq<Byte>)
    ensures 1 <= |bs| <= MaxVarintLen64
    ensures WellTerminated(bs)
    ensures |bs| == MaxVarintLen64 ==> bs[MaxVarintLen64 - 1] <= 1
  {
    LimitOfFirstByte();
    EncodingFits(ZigZag(x), 0);
    UvarintBytesTerminated(ZigZag(x));
    UvarintBytes(ZigZag(x))
  }

  /**
   * Go's `binary.Uvarint` started at index i: the value of the bytes from i
   * on (as if i were the first byte) and Go's count `n`, which is the
   * number of bytes read counted from index 0 on success, 0 when the input
   * ends before a byte below 0x80, and -(k + 1) when byte k overflows 64 bits.
   */
  function UvarintFrom(buf: seq<Byte>, i: nat): (r: (nat, int))
    ensures r.1 <= 0 ==> r.0 == 0
    ensures r.1 > 0 ==> i < r.1 <= |buf| && buf[r.1 - 1] < 0x80
    ensures i <= MaxVarintLen64 && r.1 > 0 ==> r.1 <= MaxVarintLen64
    ensures r.1 < 0 ==> r.1 < -(i as int)
    decreases |buf| - i
  {
    if i >= |buf| then (0, 0)
    else if i == MaxVarintLen64 then (0, -(i + 1))
    else if buf[i] < 0x80 then
      if i == MaxVarintLen64 - 1 && buf[i] > 1 then (0, -(i + 1)) else (buf[i], i + 1)
    else
      var (x, n) := UvarintFrom(buf, i + 1);
      if n > 0 then (buf[i] - 0x80 + 0x80 * x, n) else (0, n)
  }

  /** On success the decoded value fits the bits still available from index i. */
  lemma {:induction false} UvarintFromBound(buf: seq<Byte>, i: nat)
    requires i <= 9
    ensures UvarintFrom(buf, i).1 > 0 ==> UvarintFrom(buf, i).0 < Limit(i)
    decreases 10 - i
  {
    if i < |buf| && buf[i] >= 0x80 {
      if i < 9 {
        UvarintFromBound(buf, i + 1);
        var (x, n) := UvarintFrom(buf, i + 1);
        if n > 0 {
          assert x + 1 <= Limit(i + 1);
          assert 0x80 * (x + 1) <= 0x80 * Limit(i + 1);
        }
      } else {
        assert UvarintFrom(buf, i + 1).1 <= 0;
      }
    }
  }

  /** Go's `binary.Uvarint`. */
  function Uvarint(buf: seq<Byte>): (r: (Uint64, int))
    ensures r.1 <= 0 ==> r.0 == 0
  {
    var (x, n) := UvarintFrom(buf, 0);
    UvarintFromBound(buf, 0);
    LimitOfFirstByte();
    (x, n)
  }

  /** Go's `binary.Varint`: the ZigZag-decoded `Uvarint`, with the same count. */
  function Varint(buf: seq<Byte>): (r: (Int64, int))
    ensures r.1 == Uvarint(buf).1
    ensures r.1 <= 0 ==> r.0 == 0
    ensures r.1 > 0 ==> r.1 <= |buf| && r.1 <= MaxVarintLen64
  {
    var (ux, n) := Uvarint(buf);
    (UnZigZag(ux), n)
  }

  /**
   * Decoding from index i stops at the end of an encoding placed there: it
   * reads back the encoded value and whatever follows is never looked at.
   */
  lemma {:induction false} UvarintFromEncoded(u: nat, buf: seq<Byte>, i: nat)
    requires i <= 9 && u < Limit(i)
    requires i + |UvarintBytes(u)| <= |buf|
    requires buf[i..i + |UvarintBytes(u)|] == UvarintBytes(u)
    ensures UvarintFrom(buf, i) == (u, i + |UvarintBytes(u)|)
    decreases 10 - i
  {
    var bs := UvarintBytes(u);
    assert buf[i] == bs[0];
    if u >= 0x80 {
      EncodingFits(u, i);
      var tail := UvarintBytes(u / 0x80);
      assert bs == [bs[0]] + tail;
      assert buf[i + 1..i + 1 + |tail|] == tail by {
        assert buf[i + 1..i + 1 + |tail|] == buf[i..i + |bs|][1..];
      }
      UvarintFromEncoded(u / 0x80, buf, i + 1);
    } else {
      EncodingFits(u, i);
    }
  }

  /**
   * Round trip: a buffer that starts with `VarintBytes(x)` decodes to `x`,
   * with the count equal to the encoding's length, whatever bytes follow.
   */
  lemma VarintRoundTrip(x: Int64, rest: seq<Byte>)
    ensures Varint(VarintBytes(x) + rest) == (x, |VarintBytes(x)|)
  {
    var bs := VarintBytes(x);
    LimitOfFirstByte();
    assert (bs + rest)[0..|bs|] == bs;
    UvarintFromEncoded(ZigZag(x), bs + rest, 0);
  }

  /**
   * On a 10-byte frame `Varint` reports 0 exactly when every byte carries
   * the continuation bit.
   */
  lemma {:induction false} TruncatedFrom(buf: seq<Byte>, i: nat)
    requires |buf| == MaxVarintLen64 && i <= MaxVarintLen64
    ensures UvarintFrom(buf, i).1 == 0 <==> forall j :: i <= j < MaxVarintLen64 ==> buf[j] >= 0x80
    decreases 10 - i
  {
    if i < MaxVarintLen64 && buf[i] >= 0x80 {
      TruncatedFrom(buf, i + 1);
    }
  }

  /**
   * On a 10-byte frame `Varint` reports overflow (-10, the only negative
   * count a 10-byte buffer allows) exactly when bytes 0..8 all continue and
   * the tenth byte terminates with a value above 1.
   */
  lemma {:induction false} OverflowFrom(buf: seq<Byte>, i: nat)
    requires |buf| == MaxVarintLen64 && i < MaxVarintLen64
    ensures UvarintFrom(buf, i).1 < 0 <==>
      (forall j :: i <= j < MaxVarintLen64 - 1 ==> buf[j] >= 0x80) && 1 < buf[MaxVarintLen64 - 1] < 0x80
    ensures UvarintFrom(buf, i).1 < 0 ==> UvarintFrom(buf, i).1 == -(MaxVarintLen64 as int)
    decreases 10 - i
  {
    if i < MaxVarintLen64 - 1 && buf[i] >= 0x80 {
      OverflowFrom(buf, i + 1);
    }
  }

  /**
   * `binary.PutVarint` on a caller's buffer: writes the encoding of `x` over
   * the first `n` bytes and leaves every later byte as it was.
   */
  method PutVarint(buf: array<Byte>, x: Int64) returns (n: nat)
    requires buf.Length >= MaxVarintLen64
    modifies buf
    ensures n == |VarintBytes(x)|
    ensures buf[..] == VarintBytes(x) + old(buf[n..])
  {
    ghost var full := VarintBytes(x);
    var ux: nat := ZigZag(x);
    var i := 0;
    while ux >= 0x80
      invariant i < |full| && full[i..] == UvarintBytes(ux)
      invariant forall k :: 0 <= k < i ==> buf[k] == full[k]
      invariant forall k :: i <= k < buf.Length ==> buf[k] == old(buf[k])
      decreases ux
    {
      assert full[i + 1..] == full[i..][1..];
      buf[i] := ux % 0x80 + 0x80;
      ux := ux / 0x80;
      i := i + 1;
    }
    buf[i] := ux;
    n := i + 1;
    assert |full[i..]| == 1;
    ghost var after := old(buf[n..]);
    assert forall k :: 0 <= k < buf.Length ==> buf[..][k] == (full + after)[k];
  }
}
