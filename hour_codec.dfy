/** The storage codec for one row's week of hours: seven day values
    (Saturday..Friday) packed into one 56-bit integer, one unsigned byte of
    tenths of an hour per day, Saturday in the lowest byte. */
module HourCodec {
  import opened Base

  /** Days in a timesheet week, Saturday..Friday. */
  const DAYS := 7
  /** Largest tenths value one byte holds (25.5 hours). */
  const MAX_TENTHS := 255

  /** Math.round: the nearest integer, halves rounding up. */
  function Round(x: real): int
  {
    (x + 0.5).Floor
  }

  /** One day's hours as stored: rounded to tenths, then capped to the
      byte range 0..255. */
  function DayTenths(h: real): (t: int)
    ensures 0 <= t <= MAX_TENTHS
    ensures 0 <= Round(h * 10.0) <= MAX_TENTHS ==> t == Round(h * 10.0)
  {
    var t := Round(h * 10.0);
    if t < 0 then 0 else if t > MAX_TENTHS then MAX_TENTHS else t
  }

  function Pow256(n: nat): (p: nat)
    ensures p >= 1
  {
    if n == 0 then 1 else 256 * Pow256(n - 1)
  }

  /** The packed value of days i..6, day i in the lowest byte. */
  function PackFrom(hours: seq<real>, i: nat): (v: int)
    requires |hours| >= DAYS && i <= DAYS
    ensures 0 <= v < Pow256(DAYS - i)
    decreases DAYS - i
  {
    if i == DAYS then 0 else DayTenths(hours[i]) + 256 * PackFrom(hours, i + 1)
  }

  /** The packed week: a value below 2^56. */
  function Pack(hours: seq<real>): (v: int)
    requires |hours| >= DAYS
    ensures 0 <= v < Pow256(DAYS)
  {
    PackFrom(hours, 0)
  }

  /** `p >> (8 * k)` on a Java long: an arithmetic shift, which is floor
      division by 256 once per byte. */
  function Shr8(p: int, k: nat): int
  {
    if k == 0 then p else Shr8(p, k - 1) / 256
  }

  /** `(p >> (8 * k)) & 0xFF`. */
  function ByteAt(p: int, k: nat): (b: int)
    ensures 0 <= b < 256
  {
    Shr8(p, k) % 256
  }

  /** The week read back from a packed value: each byte's tenths as hours. */
  function Unpack(p: int): (hours: seq<real>)
    ensures |hours| == DAYS
  {
    seq(DAYS, k requires 0 <= k < DAYS => ByteAt(p, k) as real / 10.0)
  }

  /** The first step of each turn of the packing loop: Math.round(h * 10),
      then clamped to 0..255. */
  method ClampedTenths(h: real) returns (tenths: int)
    ensures tenths == DayTenths(h)
  {
    tenths := Round(h * 10.0);
    if tenths < 0 {
      tenths := 0;
    }
    if tenths > MAX_TENTHS {
      tenths := MAX_TENTHS;
    }
  }

  /** The packing loop of `TimeSheetRepo.packHours`. Each day's byte lands
      above every bit already set, so OR-ing it in is the same as adding
      it. */
  method PackHours(hours: seq<real>) returns (v: int)
    requires |hours| >= DAYS
    ensures v == Pack(hours)
  {
    v := 0;
    var i := 0;
    while i < DAYS
      invariant 0 <= i <= DAYS
      invariant 0 <= v < Pow256(i)
      invariant v + Pow256(i) * PackFrom(hours, i) == Pack(hours)
    {
      var tenths := ClampedTenths(hours[i]);
      PackStep(hours, i, v);
      v := v + tenths * Pow256(i);
      i := i + 1;
    }
    assert PackFrom(hours, DAYS) == 0;
  }

  /** One turn of the packing loop keeps its invariant. */
  lemma PackStep(hours: seq<real>, i: nat, v: int)
    requires |hours| >= DAYS && i < DAYS
    requires 0 <= v < Pow256(i) && v + Pow256(i) * PackFrom(hours, i) == Pack(hours)
    ensures 0 <= v + DayTenths(hours[i]) * Pow256(i) < Pow256(i + 1)
    ensures (v + DayTenths(hours[i]) * Pow256(i)) + Pow256(i + 1) * PackFrom(hours, i + 1) == Pack(hours)
  {
    ByteStep(v, DayTenths(hours[i]), Pow256(i), PackFrom(hours, i + 1));
  }

  /** The arithmetic of one turn of the packing loop: adding a byte t at
      weight q to a value below q stays below the next weight 256 * q. */
  lemma ByteStep(v: int, t: int, q: int, r: int)
    requires 0 <= v < q && 0 <= t <= MAX_TENTHS
    ensures 0 <= v + t * q < 256 * q
    ensures q * (t + 256 * r) == t * q + (256 * q) * r
  {
    assert t * q <= 255 * q;
  }

  /** The unpacking loop of `TimeSheetRepo.unpackHours`, filling a fresh
      seven-slot array. */
  method UnpackHours(packed: int) returns (out: array<real>)
    ensures fresh(out)
    ensures out[..] == Unpack(packed)
  {
    out := new real[DAYS];
    var shifted := packed;
    var i := 0;
    while i < DAYS
      invariant 0 <= i <= DAYS
      invariant shifted == Shr8(packed, i)
      invariant forall k :: 0 <= k < i ==> out[k] == Unpack(packed)[k]
    {
      var tenths := shifted % 256;
      out[i] := tenths as real / 10.0;
      shifted := shifted / 256;
      i := i + 1;
    }
  }

  /** Shifting a packed week right by k bytes leaves days k..6. */
  lemma {:induction false} ShiftOfPack(hours: seq<real>, k: nat)
    requires |hours| >= DAYS && k <= DAYS
    ensures Shr8(Pack(hours), k) == PackFrom(hours, k)
  {
    if k > 0 {
      ShiftOfPack(hours, k - 1);
    }
  }

  /** Each day rounded to tenths and capped to 0..25.5 hours. */
  function Quantised(hours: seq<real>): (q: seq<real>)
    requires |hours| >= DAYS
    ensures |q| == DAYS
  {
    seq(DAYS, k requires 0 <= k < DAYS => DayTenths(hours[k]) as real / 10.0)
  }

  /** Unpacking a packed week gives back every day rounded to tenths and
      capped to 0..25.5 hours. */
  lemma UnpackPack(hours: seq<real>)
    requires |hours| >= DAYS
    ensures Unpack(Pack(hours)) == Quantised(hours)
  {
    forall k | 0 <= k < DAYS
      ensures Unpack(Pack(hours))[k] == Quantised(hours)[k]
    {
      ByteOfPack(hours, k);
    }
  }

  /** Byte k of a packed week is day k's stored tenths. */
  lemma ByteOfPack(hours: seq<real>, k: nat)
    requires |hours| >= DAYS && k < DAYS
    ensures ByteAt(Pack(hours), k) == DayTenths(hours[k])
  {
    ShiftOfPack(hours, k);
    LowByte(DayTenths(hours[k]), PackFrom(hours, k + 1));
  }

  /** A day value the codec keeps exactly: a whole number of tenths
      between 0 and 25.5 hours. */
  predicate Storable(h: real)
  {
    0.0 <= h <= 25.5 && Round(h * 10.0) as real == h * 10.0
  }

  /** The low byte of t + 256 * q is t. */
  lemma LowByte(t: int, q: int)
    requires 0 <= t < 256
    ensures (t + 256 * q) % 256 == t
  {
  }

  /** A week of storable days survives a pack/unpack round trip unchanged. */
  lemma UnpackPackStorable(hours: seq<real>)
    requires |hours| == DAYS
    requires forall k :: 0 <= k < DAYS ==> Storable(hours[k])
    ensures Unpack(Pack(hours)) == hours
  {
    UnpackPack(hours);
    forall k | 0 <= k < DAYS
      ensures Quantised(hours)[k] == hours[k]
    {
      assert DayTenths(hours[k]) == Round(hours[k] * 10.0);
    }
  }

  /** After k byte shifts a value below 256^(k+j) is below 256^j. */
  lemma {:induction false} ShiftBound(p: int, k: nat, j: nat)
    requires 0 <= p < Pow256(k + j)
    ensures 0 <= Shr8(p, k) < Pow256(j)
  {
    if k > 0 {
      ShiftBound(p, k - 1, j + 1);
    }
  }

  /** Repacking an unpacked value rebuilds the bytes from day i on. */
  lemma {:induction false} PackFromUnpack(p: int, i: nat)
    requires 0 <= p < Pow256(DAYS) && i <= DAYS
    ensures PackFrom(Unpack(p), i) == Shr8(p, i)
    decreases DAYS - i
  {
    var u := Unpack(p);
    if i == DAYS {
      ShiftBound(p, DAYS, 0);
    } else {
      PackFromUnpack(p, i + 1);
      var b := ByteAt(p, i);
      assert u[i] == b as real / 10.0;
      assert Round(u[i] * 10.0) == b;
      calc {
        PackFrom(u, i);
        b + 256 * Shr8(p, i + 1);
        Shr8(p, i) % 256 + 256 * (Shr8(p, i) / 256);
        Shr8(p, i);
      }
    }
  }

  /** Every 56-bit value is the packing of the week it unpacks to. */
  lemma PackUnpack(p: int)
    requires 0 <= p < Pow256(DAYS)
    ensures Pack(Unpack(p)) == p
  {
    PackFromUnpack(p, 0);
  }

  /** Every unpacked day is storable, so unpacking never loses information
      a later pack would need. */
  lemma UnpackStorable(p: int)
    ensures forall k :: 0 <= k < DAYS ==> Storable(Unpack(p)[k])
  {
    forall k | 0 <= k < DAYS
      ensures Storable(Unpack(p)[k])
    {
      TenthsStorable(ByteAt(p, k));
    }
  }

  /** A byte's worth of tenths, read as hours, is storable. */
  lemma TenthsStorable(b: int)
    requires 0 <= b <= MAX_TENTHS
    ensures Storable(b as real / 10.0)
  {
    var h := b as real / 10.0;
    assert h * 10.0 == b as real;
    assert Round(b as real) == b;
  }

  /** `safeHours`: a row's hours when they are exactly seven days,
      otherwise a week of zeros. */
  function SafeHours(hours: Option<seq<real>>): (r: seq<real>)
    ensures |r| == DAYS
    ensures hours.Some? && |hours.value| == DAYS ==> r == hours.value
    ensures !(hours.Some? && |hours.value| == DAYS) ==> forall k :: 0 <= k < DAYS ==> r[k] == 0.0
  {
    if hours.Some? && |hours.value| == DAYS then hours.value else seq(DAYS, _ => 0.0)
  }
}
