/** Length-prefixed framing of byte strings, and why it loses nothing. */
module Framing {

  newtype byte = x: int | 0 <= x < 256

  type Bytes = seq<byte>

  function Power256(n: nat): (r: nat)
    ensures r > 0
  {
    if n == 0 then 1 else 256 * Power256(n - 1)
  }

  /** `x` in `width` bytes, most significant first. */
  function BigEndian(x: nat, width: nat): (r: Bytes)
    requires x < Power256(width)
    ensures |r| == width
  {
    if width == 0 then []
    else
      BigEndian(x / 256, width - 1) + [(x % 256) as byte]
  }

  function FromBigEndian(b: Bytes): nat {
    if b == [] then 0 else 256 * FromBigEndian(b[..|b| - 1]) + b[|b| - 1] as nat
  }

  lemma {:induction false} BigEndianRoundTrip(x: nat, width: nat)
    requires x < Power256(width)
    ensures FromBigEndian(BigEndian(x, width)) == x
  {
    if width > 0 {
      var head := BigEndian(x / 256, width - 1);
      assert BigEndian(x, width)[..width - 1] == head;
      BigEndianRoundTrip(x / 256, width - 1);
    }
  }

  /** `struct.pack(">Q", n)` */
  function Length(n: nat): (r: Bytes)
    requires n < Power256(8)
    ensures |r| == 8
  {
    BigEndian(n, 8)
  }

  /** `x >> 8 * bytes` */
  function Shifted(x: nat, bytes: nat): nat { if bytes == 0 then x else Shifted(x / 256, bytes - 1) }

  /** The eight bytes of a length: the last is its low byte, each earlier one the next higher. */
  lemma {:induction false} BigEndianAt(x: nat, width: nat, i: nat)
    requires x < Power256(width) && i < width
    ensures BigEndian(x, width)[i] as nat == Shifted(x, width - 1 - i) % 256
  {
    if i < width - 1 {
      BigEndianAt(x / 256, width - 1, i);
    }
  }

  lemma {:induction false} LengthBytes(n: nat, i: nat)
    requires n < Power256(8) && i < 8
    ensures Length(n)[i] as nat == Shifted(n, 7 - i) % 256
  {
    BigEndianAt(n, 8, i);
  }

  /** No byte string has 2^64 bytes or more. */
  predicate Sized(parts: seq<Bytes>) {
    forall p | p in parts :: |p| < Power256(8)
  }

  /** One part after its length. */
  function Piece(part: Bytes): Bytes
    requires |part| < Power256(8)
  {
    Length(|part|) + part
  }

  /** Each part after its length. */
  function Framed(parts: seq<Bytes>): Bytes
    requires Sized(parts)
  {
    if parts == [] then [] else Piece(parts[0]) + Framed(parts[1..])
  }

  lemma {:induction false} FramedAppend(parts: seq<Bytes>, part: Bytes)
    requires Sized(parts + [part])
    ensures Sized(parts) && |part| < Power256(8)
    ensures Framed(parts + [part]) == Framed(parts) + Piece(part)
  {
    assert part in parts + [part];
    if parts == [] {
      assert (parts + [part])[1..] == [];
      assert parts + [part] == [part];
    } else {
      assert (parts + [part])[1..] == parts[1..] + [part];
      FramedAppend(parts[1..], part);
      Associative(Piece(parts[0]), Framed(parts[1..]), Piece(part));
    }
  }

  lemma Associative(a: Bytes, b: Bytes, c: Bytes)
    ensures a + (b + c) == (a + b) + c
  {
  }

  /** `_frame` */
  method Frame(parts: seq<Bytes>) returns (framed: Bytes)
    requires Sized(parts)
    ensures framed == Framed(parts)
  {
    framed := [];
    for i := 0 to |parts|
      invariant framed == Framed(parts[..i])
    {
      assert parts[..i + 1] == parts[..i] + [parts[i]];
      FramedAppend(parts[..i], parts[i]);
      Associative(framed, Length(|parts[i]|), parts[i]);
      framed := framed + Length(|parts[i]|);
      framed := framed + parts[i];
    }
    assert parts[..|parts|] == parts;
  }

  /** The first frame can be read off the front. */
  lemma FirstFrame(a: Bytes, restA: Bytes, b: Bytes, restB: Bytes)
    requires |a| < Power256(8) && |b| < Power256(8)
    requires Piece(a) + restA == Piece(b) + restB
    ensures a == b && restA == restB
  {
    var left, right := Piece(a) + restA, Piece(b) + restB;
    assert left[..8] == Length(|a|) && right[..8] == Length(|b|);
    BigEndianRoundTrip(|a|, 8);
    BigEndianRoundTrip(|b|, 8);
    assert left[8..8 + |a|] == a && right[8..8 + |b|] == b;
    assert left[8 + |a|..] == restA && right[8 + |b|..] == restB;
  }

  /** Different lists of parts never frame to the same bytes. */
  lemma {:induction false} FrameInjective(a: seq<Bytes>, b: seq<Bytes>)
    requires Sized(a) && Sized(b)
    requires Framed(a) == Framed(b)
    ensures a == b
  {
    if a != [] && b != [] {
      FirstFrame(a[0], Framed(a[1..]), b[0], Framed(b[1..]));
      FrameInjective(a[1..], b[1..]);
      assert a == [a[0]] + a[1..] && b == [b[0]] + b[1..];
    }
  }
}
