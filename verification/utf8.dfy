/** UTF-8 as a fatal TextDecoder reads it: the well-formed byte sequences of
    section 4 of RFC 3629, and their code points. */
module Utf8 {
  import opened Common

  type Byte = b: int | 0 <= b < 256

  /** A Unicode scalar value: any code point but a surrogate. */
  predicate Scalar(p: int) { 0 <= p < 0xD800 || 0xE000 <= p < 0x110000 }

  predicate Scalars(ps: seq<int>) { forall i :: 0 <= i < |ps| ==> Scalar(ps[i]) }

  function EncodePoint(p: int): (s: seq<Byte>)
    requires Scalar(p)
    ensures 1 <= |s| <= 4
  {
    if p < 0x80 then [p]
    else if p < 0x800 then [0xC0 + p / 64, 0x80 + p % 64]
    else if p < 0x10000 then [0xE0 + p / 4096, 0x80 + p / 64 % 64, 0x80 + p % 64]
    else [0xF0 + p / 262144, 0x80 + p / 4096 % 64, 0x80 + p / 64 % 64, 0x80 + p % 64]
  }

  function Encode(ps: seq<int>): seq<Byte>
    requires Scalars(ps)
  {
    if ps == [] then [] else EncodePoint(ps[0]) + Encode(ps[1..])
  }

  predicate Continuation(b: Byte) { 0x80 <= b < 0xC0 }

  /** The first code point of the bytes and its length; None when ill-formed. */
  function DecodePoint(s: seq<Byte>): (r: Option<(int, nat)>)
    requires s != []
    ensures r.Some? ==> 1 <= r.value.1 <= |s|
  {
    var a: int := s[0];
    if a < 0x80 then Some((a, 1))
    else if |s| < 2 || !Continuation(s[1]) then None
    else
      var b: int := s[1];
      if 0xC2 <= a < 0xE0 then Some(((a - 0xC0) * 64 + (b - 0x80), 2))
      else if |s| < 3 || !Continuation(s[2]) then None
      else
        var c: int := s[2];
        if (a == 0xE0 && b >= 0xA0) || (a == 0xED && b < 0xA0) || (0xE1 <= a < 0xF0 && a != 0xED)
        then Some(((a - 0xE0) * 4096 + (b - 0x80) * 64 + (c - 0x80), 3))
        else if |s| < 4 || !Continuation(s[3]) then None
        else if (a == 0xF0 && b >= 0x90) || (0xF1 <= a < 0xF4) || (a == 0xF4 && b < 0x90)
        then Some(((a - 0xF0) * 262144 + (b - 0x80) * 4096 + (c - 0x80) * 64 + (s[3] as int - 0x80), 4))
        else None
  }

  /** The code points of a byte string; None where the decoder throws. */
  function Decode(s: seq<Byte>): Option<seq<int>>
  {
    if s == [] then Some([])
    else
      var first := DecodePoint(s);
      if first.None? then None
      else
        var rest := Decode(s[first.value.1..]);
        if rest.None? then None else Some([first.value.0] + rest.value)
  }

  lemma Digits64(a: int, b: int, c: int, d: int)
    requires 0 <= b < 64 && 0 <= c < 64 && 0 <= d < 64
    ensures var p := a * 262144 + b * 4096 + c * 64 + d;
            p % 64 == d && p / 64 % 64 == c && p / 4096 % 64 == b && p / 262144 == a
  {
    var p := a * 262144 + b * 4096 + c * 64 + d;
    assert p / 64 == a * 4096 + b * 64 + c;
    assert p / 4096 == a * 64 + b;
  }

  lemma PointSound(s: seq<Byte>)
    requires s != [] && DecodePoint(s).Some?
    ensures var (p, n) := DecodePoint(s).value; Scalar(p) && EncodePoint(p) == s[..n]
  {
    var (p, n) := DecodePoint(s).value;
    var a: int := s[0];
    if n == 2 {
      assert p / 64 == a - 0xC0;
    } else if n == 3 {
      Digits64(0, a - 0xE0, s[1] - 0x80, s[2] - 0x80);
      assert p / 4096 == a - 0xE0;
    } else if n == 4 {
      Digits64(a - 0xF0, s[1] - 0x80, s[2] - 0x80, s[3] - 0x80);
    }
    assert EncodePoint(p) == s[..n];
  }

  lemma Divide64(p: int)
    requires p >= 0
    ensures p == p / 64 * 64 + p % 64 && p / 4096 == p / 64 / 64
  {}

  lemma ThreeBytes(p: int)
    requires 0x800 <= p < 0x10000
    ensures p == p / 4096 * 4096 + p / 64 % 64 * 64 + p % 64
    ensures p / 4096 == 0 ==> p / 64 % 64 >= 0x20
    ensures p / 4096 == 13 ==> (p / 64 % 64 < 0x20 <==> p < 0xD800)
  {
    Divide64(p);
    var q := p / 64;
    assert q == q / 64 * 64 + q % 64;
  }

  lemma Divide4096(p: int)
    requires p >= 0
    ensures p / 262144 == p / 4096 / 64
  {
    var q := p / 4096;
    var r := q / 64;
    assert p == 4096 * q + p % 4096 && q == 64 * r + q % 64;
    assert p == 262144 * r + (4096 * (q % 64) + p % 4096);
  }

  lemma FourBytes(p: int)
    requires 0x10000 <= p < 0x110000
    ensures p == p / 262144 * 262144 + p / 4096 % 64 * 4096 + p / 64 % 64 * 64 + p % 64
    ensures p / 262144 == 0 ==> p / 4096 % 64 >= 0x10
    ensures p / 262144 == 4 ==> p / 4096 % 64 < 0x10
  {
    Divide64(p);
    Divide4096(p);
    var q, r := p / 64, p / 4096;
    assert q == r * 64 + q % 64;
    assert r == r / 64 * 64 + r % 64;
  }

  /** A byte under a marker that leaves it `room` values, and the value it carries. */
  predicate Marked(b: int, marker: int, room: int) { marker <= b < marker + room }

  function Bits(b: int, marker: int): int { b - marker }

  /** The bit layout of section 3 of RFC 3629: the number of bytes by range, the
      marker bits of each byte, and the payload bits, most significant first. */
  lemma PointLayout(p: int)
    requires Scalar(p)
    ensures var s := EncodePoint(p);
            && |s| == (if p < 0x80 then 1 else if p < 0x800 then 2 else if p < 0x10000 then 3 else 4)
            && (forall i :: 1 <= i < |s| ==> Marked(s[i], 0x80, 64))
            && (|s| == 1 ==> p == s[0])
            && (|s| == 2 ==> Marked(s[0], 0xC0, 32) && p == Bits(s[0], 0xC0) * 64 + Bits(s[1], 0x80))
            && (|s| == 3 ==>
                  && Marked(s[0], 0xE0, 16)
                  && p == Bits(s[0], 0xE0) * 4096 + Bits(s[1], 0x80) * 64 + Bits(s[2], 0x80))
            && (|s| == 4 ==>
                  && Marked(s[0], 0xF0, 8)
                  && p == Bits(s[0], 0xF0) * 262144 + Bits(s[1], 0x80) * 4096
                          + Bits(s[2], 0x80) * 64 + Bits(s[3], 0x80))
  {
    if 0x800 <= p < 0x10000 {
      ThreeBytes(p);
    } else if 0x10000 <= p {
      FourBytes(p);
    }
  }

  lemma PointComplete(p: int, rest: seq<Byte>)
    requires Scalar(p)
    ensures DecodePoint(EncodePoint(p) + rest) == Some((p, |EncodePoint(p)|))
  {
    if p < 0x800 {
      assert (EncodePoint(p) + rest)[0] == EncodePoint(p)[0];
    } else if p < 0x10000 {
      ThreeBytes(p);
    } else {
      FourBytes(p);
    }
  }

  /** Whatever decodes is the encoding of its code points. */
  lemma {:induction false} DecodeSound(s: seq<Byte>)
    requires Decode(s).Some?
    ensures Scalars(Decode(s).value) && Encode(Decode(s).value) == s
  {
    hide DecodePoint, EncodePoint, Decode, Encode, Scalars, Scalar;
    if s == [] {
      DecodeNone();
    } else {
      DecodeStep(s);
      PointSound(s);
      var (p, n) := DecodePoint(s).value;
      DecodeSound(s[n..]);
      EncodeStep(p, Decode(s[n..]).value);
      assert s == s[..n] + s[n..];
    }
  }

  lemma DecodeNone()
    ensures Decode([]) == Some([]) && Scalars([]) && Encode([]) == []
  {}

  lemma {:induction false} DecodeStep(s: seq<Byte>)
    requires s != [] && Decode(s).Some?
    ensures DecodePoint(s).Some?
    ensures var (p, n) := DecodePoint(s).value;
            Decode(s[n..]).Some? && Decode(s).value == [p] + Decode(s[n..]).value
  {
    hide DecodePoint;
  }

  lemma {:induction false} EncodeStep(p: int, ps: seq<int>)
    requires Scalar(p) && Scalars(ps)
    ensures Scalars([p] + ps) && Encode([p] + ps) == EncodePoint(p) + Encode(ps)
  {
    hide EncodePoint, Scalar;
    assert ([p] + ps)[1..] == ps;
  }

  /** Every string of scalar values decodes back to itself, so the decoder accepts
      exactly the encodings. */
  lemma {:induction false} DecodeComplete(ps: seq<int>)
    requires Scalars(ps)
    ensures Decode(Encode(ps)) == Some(ps)
  {
    if ps != [] {
      PointComplete(ps[0], Encode(ps[1..]));
      DecodeComplete(ps[1..]);
      hide DecodePoint, EncodePoint;
      var e := EncodePoint(ps[0]);
      assert (e + Encode(ps[1..]))[|e|..] == Encode(ps[1..]);
      assert ps == [ps[0]] + ps[1..];
    }
  }
}
