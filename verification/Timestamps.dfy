/** Instants, and the 8-byte big-endian keys they are stored under
    (internal/history/history.go, encodeTimestamp and decodeTimestamp). */
module Timestamps {
  import opened Text

  /** Nanoseconds since Go's zero time; time.Time{} is 0. */
  type Time = int

  const SECOND := 1_000_000_000
  const DAY := 24 * 3600 * SECOND
  /** 1970-01-01T00:00:00Z, 62135596800 seconds after the zero time. */
  const EPOCH: Time := 62_135_596_800 * SECOND

  const TWO63 := 0x8000_0000_0000_0000
  const TWO64 := 0x1_0000_0000_0000_0000

  /** t.Unix(): whole seconds since the epoch, rounded down. */
  function Unix(t: Time): int { (t - EPOCH) / SECOND }

  /** t.Truncate(d): the last multiple of d, counted from the zero time, not after t. */
  function Truncate(t: Time, d: int): Time
    requires d > 0
  { t - t % d }

  /** int64 two's complement wrap-around. */
  function Wrap64(n: int): int {
    var r := n % TWO64;
    if r < TWO63 then r else r - TWO64
  }

  predicate IsInt64(n: int) { -TWO63 <= n < TWO63 }

  // ----- big-endian bytes -----

  function Pow256(k: nat): (p: nat)
    ensures p >= 1
  { if k == 0 then 1 else 256 * Pow256(k - 1) }

  function Bytes(n: nat, k: nat): (b: string)
    ensures |b| == k
    ensures forall i :: 0 <= i < k ==> b[i] < 256 as char
  {
    if k == 0 then [] else Bytes(n / 256, k - 1) + [(n % 256) as char]
  }

  function Number(b: string): nat {
    if b == [] then 0 else Number(b[..|b| - 1]) * 256 + b[|b| - 1] as nat
  }

  lemma {:induction false} NumberOfBytes(n: nat, k: nat)
    requires n < Pow256(k)
    ensures Number(Bytes(n, k)) == n
  {
    if k > 0 {
      var b := Bytes(n, k);
      assert b[..k - 1] == Bytes(n / 256, k - 1);
      NumberOfBytes(n / 256, k - 1);
    }
  }

  /** Appending one byte to two keys of one length compares the long part first. */
  lemma {:induction false} LessOnLast(a: string, x: char, b: string, y: char)
    requires |a| == |b|
    ensures Less(a + [x], b + [y]) <==> Less(a, b) || (a == b && x < y)
  {
    if a == [] {
      assert a + [x] == [x] && b + [y] == [y];
      assert [x][1..] == [] && [y][1..] == [];
    } else {
      assert (a + [x])[1..] == a[1..] + [x] && (b + [y])[1..] == b[1..] + [y];
      LessOnLast(a[1..], x, b[1..], y);
      assert a == [a[0]] + a[1..] && b == [b[0]] + b[1..];
    }
  }

  /** Byte order on equally long big-endian keys is numeric order. */
  lemma {:induction false} BytesOrder(m: nat, n: nat, k: nat)
    requires m < Pow256(k) && n < Pow256(k)
    ensures Less(Bytes(m, k), Bytes(n, k)) <==> m < n
  {
    hide Less, Number;
    assert k == 0 ==> !Less(Bytes(m, k), Bytes(n, k)) by { LessTotal(Bytes(m, k), Bytes(n, k)); }
    if k > 0 {
      var hm, lm, hn, ln := Bytes(m / 256, k - 1), (m % 256) as char, Bytes(n / 256, k - 1), (n % 256) as char;
      BytesOrder(m / 256, n / 256, k - 1);
      NumberOfBytes(m / 256, k - 1);
      NumberOfBytes(n / 256, k - 1);
      LessOnLast(hm, lm, hn, ln);
      assert hm == hn <==> m / 256 == n / 256;
      assert Less(hm + [lm], hn + [ln]) <==> m < n;
    }
  }

  lemma Pow256Of8()
    ensures Pow256(8) == TWO64
  {
    assert Pow256(2) == 0x1_0000;
    assert Pow256(4) == 256 * 256 * Pow256(2);
    assert Pow256(6) == 256 * 256 * Pow256(4);
    assert Pow256(8) == 256 * 256 * Pow256(6);
  }

  // ----- the stored key of an instant -----

  /** uint64(t.Unix()), most significant byte first: seconds before the epoch wrap. */
  function Encode(t: Time): string { Bytes(Unix(t) % TWO64, 8) }

  /** int64(binary.BigEndian.Uint64(b)), in seconds since the epoch. */
  function DecodeSeconds(b: string): int { Wrap64(Number(b)) }

  /** decode after encode is the identity on every int64 number of seconds. */
  lemma DecodeEncode(t: Time)
    requires IsInt64(Unix(t))
    ensures DecodeSeconds(Encode(t)) == Unix(t)
  {
    hide Unix, Bytes, Number, Pow256;
    Pow256Of8();
    NumberOfBytes(Unix(t) % TWO64, 8);
  }

  /** Key order is time order at and after the epoch. */
  lemma EncodeOrder(s: Time, t: Time)
    requires 0 <= Unix(s) < TWO64 && 0 <= Unix(t) < TWO64
    ensures Less(Encode(s), Encode(t)) <==> Unix(s) < Unix(t)
  {
    hide Unix, Bytes, Less, Pow256;
    Pow256Of8();
    BytesOrder(Unix(s), Unix(t), 8);
  }

  /** An instant before the epoch encodes past every representable one at or after it. */
  lemma PreEpochWraps(s: Time, t: Time)
    requires -TWO63 <= Unix(s) < 0 <= Unix(t) < TWO63
    ensures Less(Encode(t), Encode(s))
  {
    hide Unix, Bytes, Less, Pow256;
    Pow256Of8();
    BytesOrder(Unix(t), Unix(s) % TWO64, 8);
  }
}
