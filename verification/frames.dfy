/** WebSocket frames on the wire: sections 5.2 and 5.3 of RFC 6455, as
    apps/control-plane/src/connector/gateway.ts reads and writes them. */
module Frames {
  import opened Common
  import opened Utf8
  import Binary64

  const MAX_FRAME_BYTES: nat := 65536

  // ----- masking -----

  /** Exclusive or, bit by bit. */
  function Xor(a: nat, b: nat): nat {
    if a == 0 && b == 0 then 0 else 2 * Xor(a / 2, b / 2) + (if a % 2 != b % 2 then 1 else 0)
  }

  lemma {:induction false} XorBound(a: nat, b: nat, bits: nat)
    requires a < Binary64.Pow2(bits) && b < Binary64.Pow2(bits)
    ensures Xor(a, b) < Binary64.Pow2(bits)
  {
    if bits > 0 && (a > 0 || b > 0) { XorBound(a / 2, b / 2, bits - 1); }
  }

  lemma {:induction false} XorInvolution(a: nat, b: nat)
    ensures Xor(Xor(a, b), b) == a
  {
    if a > 0 || b > 0 {
      XorInvolution(a / 2, b / 2);
      var x := Xor(a, b);
      assert x / 2 == Xor(a / 2, b / 2) && (x % 2 == 1 <==> a % 2 != b % 2);
    }
  }

  function XorByte(a: Byte, b: Byte): Byte {
    assert Binary64.Pow2(8) == 256 by { assert Binary64.Pow2(8) == 16 * Binary64.Pow2(4); }
    XorBound(a, b, 8);
    Xor(a, b)
  }

  /** Masking and unmasking are one operation. */
  function Mask(payload: seq<Byte>, mask: seq<Byte>): (r: seq<Byte>)
    requires |mask| == 4
    ensures |r| == |payload|
  {
    seq(|payload|, i requires 0 <= i < |payload| => XorByte(payload[i], mask[i % 4]))
  }

  lemma MaskInvolution(payload: seq<Byte>, mask: seq<Byte>)
    requires |mask| == 4
    ensures Mask(Mask(payload, mask), mask) == payload
  {
    forall i | 0 <= i < |payload| ensures Mask(Mask(payload, mask), mask)[i] == payload[i] {
      XorInvolution(payload[i], mask[i % 4]);
    }
  }

  // ----- lengths -----

  function BigEndian(s: seq<Byte>): nat {
    if s == [] then 0 else BigEndian(s[..|s| - 1]) * 256 + s[|s| - 1]
  }

  function Bytes(n: nat, k: nat): (s: seq<Byte>)
    ensures |s| == k
  {
    if k == 0 then [] else Bytes(n / 256, k - 1) + [n % 256]
  }

  function Pow256(k: nat): (p: nat)
    ensures p >= 1
  {
    if k == 0 then 1 else 256 * Pow256(k - 1)
  }

  lemma {:induction false} BytesRead(n: nat, k: nat)
    requires n < Pow256(k)
    ensures BigEndian(Bytes(n, k)) == n
  {
    if k > 0 {
      BytesRead(n / 256, k - 1);
      assert Bytes(n, k)[..k - 1] == Bytes(n / 256, k - 1);
    }
  }

  lemma {:induction false} ReadBytes(s: seq<Byte>)
    ensures Bytes(BigEndian(s), |s|) == s && BigEndian(s) < Pow256(|s|)
  {
    if s != [] {
      ReadBytes(s[..|s| - 1]);
      assert s == s[..|s| - 1] + [s[|s| - 1]];
    }
  }

  lemma PowersOf256()
    ensures Pow256(2) == 65536 && Pow256(8) == 0x1_0000_0000_0000_0000
  {
    assert Pow256(4) == 256 * (256 * Pow256(2));
    assert Pow256(6) == 256 * (256 * Pow256(4));
    assert Pow256(8) == 256 * (256 * Pow256(6));
  }

  // ----- reading a frame -----

  datatype Head = NeedMore | Bad(code: nat) | Head(offset: nat, length: nat)

  predicate Control(opcode: int) { opcode >= 8 }

  /** The rules a header must meet whatever its length. */
  predicate Permitted(fin: bool, opcode: int, shortLength: bool, fragmenting: bool) {
    && opcode in {0, 1, 2, 8, 9, 10}
    && (Control(opcode) ==> fin && shortLength)
    && (opcode == 0 ==> fragmenting)
    && (opcode == 1 ==> !fragmenting)
  }

  function ReadHeader(buf: seq<Byte>, fragmenting: bool): (h: Head)
    requires |buf| >= 2
    ensures h.Head? ==> h.offset in {2, 4, 10} && h.offset <= |buf|
  {
    var first: int, second: int := buf[0], buf[1];
    var fin, opcode, lengthCode := first >= 128, first % 16, second % 128;
    if first / 16 % 8 != 0 || second < 128 then Bad(1002)
    else if !Permitted(fin, opcode, lengthCode <= 125, fragmenting) then Bad(1002)
    else if opcode == 2 then Bad(1003)
    else if lengthCode < 126 then Head(2, lengthCode)
    else if lengthCode == 126 then
      if |buf| < 4 then NeedMore
      else
        var length := BigEndian(buf[2..4]);
        if length < 126 then Bad(1002) else Head(4, length)
    else if |buf| < 10 then NeedMore
    else
      var extended := BigEndian(buf[2..10]);
      if extended >= 0x8000_0000_0000_0000 || extended < 65536 then Bad(1002)
      else if extended > MAX_FRAME_BYTES then Bad(1009)
      else Head(10, extended)
  }

  datatype Parsed =
    | Incomplete
    | Reject(code: nat)
    | Frame(fin: bool, opcode: nat, payload: seq<Byte>, overhead: nat)

  /** The first frame of the buffer, unmasked. */
  function ParseFrame(buf: seq<Byte>, fragmenting: bool): (p: Parsed)
    ensures p.Frame? ==> 6 <= p.overhead <= 14 && p.overhead + |p.payload| <= |buf|
    ensures p.Frame? ==> |p.payload| <= MAX_FRAME_BYTES && p.opcode in {0, 1, 8, 9, 10}
    ensures p.Incomplete? ==> |buf| < 14 + MAX_FRAME_BYTES
  {
    if |buf| < 2 then Incomplete
    else
      var h := ReadHeader(buf, fragmenting);
      if h.NeedMore? then Incomplete
      else if h.Bad? then Reject(h.code)
      else if h.length > MAX_FRAME_BYTES then Reject(1009)
      else if |buf| < h.offset + 4 + h.length then Incomplete
      else
        var at := h.offset + 4;
        Frame(buf[0] >= 128, buf[0] % 16, Mask(buf[at..at + h.length], buf[h.offset..at]), at)
  }

  // ----- writing a frame -----

  /** The second byte and any extended length, minimally encoded. */
  function LengthField(n: nat, maskBit: nat): (s: seq<Byte>)
    requires maskBit == 0 || maskBit == 128
    ensures 1 <= |s| <= 9
  {
    if n < 126 then [maskBit + n]
    else if n <= 65535 then [maskBit + 126] + Bytes(n, 2)
    else [maskBit + 127] + Bytes(n, 8)
  }

  function FirstByte(fin: bool, opcode: nat): Byte
    requires opcode < 16
  {
    if fin then 128 + opcode else opcode
  }

  /** A client's frame: masked. */
  function MaskedFrame(fin: bool, opcode: nat, mask: seq<Byte>, payload: seq<Byte>): seq<Byte>
    requires opcode < 16 && |mask| == 4
  {
    [FirstByte(fin, opcode)] + LengthField(|payload|, 128) + mask + Mask(payload, mask)
  }

  /** The server's frame: final and unmasked. */
  function ServerFrame(opcode: nat, payload: seq<Byte>): seq<Byte>
    requires opcode < 16
  {
    [FirstByte(true, opcode)] + LengthField(|payload|, 0) + payload
  }

  // ----- both directions -----

  lemma FirstByteReads(fin: bool, opcode: nat)
    requires opcode < 16
    ensures var b := FirstByte(fin, opcode); (b >= 128 <==> fin) && b % 16 == opcode && b / 16 % 8 == 0
  {}

  lemma HeaderOfEncoded(fin: bool, opcode: nat, n: nat, rest: seq<Byte>, fragmenting: bool)
    requires opcode < 16 && Permitted(fin, opcode, n <= 125, fragmenting) && opcode != 2 && n <= MAX_FRAME_BYTES
    ensures var field := LengthField(n, 128);
            ReadHeader([FirstByte(fin, opcode)] + field + rest, fragmenting) == Head(1 + |field|, n)
  {
    hide Permitted, FirstByte, Bytes, BigEndian, Pow256;
    FirstByteReads(fin, opcode);
    PowersOf256();
    var buf := [FirstByte(fin, opcode)] + LengthField(n, 128) + rest;
    if 126 <= n <= 65535 {
      BytesRead(n, 2);
      assert buf[2..4] == Bytes(n, 2);
    } else if n > 65535 {
      BytesRead(n, 8);
      assert buf[2..10] == Bytes(n, 8);
    }
  }

  lemma ParseParts(buf: seq<Byte>, head: seq<Byte>, mask: seq<Byte>, masked: seq<Byte>, rest: seq<Byte>,
                   fragmenting: bool)
    requires |head| >= 2 && |mask| == 4 && |masked| <= MAX_FRAME_BYTES && buf == head + mask + masked + rest
    requires ReadHeader(buf, fragmenting) == Head(|head|, |masked|)
    ensures ParseFrame(buf, fragmenting) == Frame(head[0] >= 128, head[0] % 16, Mask(masked, mask), |head| + 4)
  {
    hide ReadHeader, Mask;
    assert buf[|head|..|head| + 4] == mask;
    assert buf[|head| + 4..|head| + 4 + |masked|] == masked;
  }

  /** A masked, minimally encoded frame decodes to its payload, whatever follows it. */
  lemma MaskedFrameDecodes(fin: bool, opcode: nat, mask: seq<Byte>, payload: seq<Byte>, rest: seq<Byte>,
                           fragmenting: bool)
    requires opcode < 16 && |mask| == 4 && |payload| <= MAX_FRAME_BYTES && opcode != 2
    requires Permitted(fin, opcode, |payload| <= 125, fragmenting)
    ensures ParseFrame(MaskedFrame(fin, opcode, mask, payload) + rest, fragmenting)
         == Frame(fin, opcode, payload, |MaskedFrame(fin, opcode, mask, payload)| - |payload|)
  {
    hide ReadHeader, Mask, Permitted, ParseFrame, LengthField, FirstByte;
    var head, masked := [FirstByte(fin, opcode)] + LengthField(|payload|, 128), Mask(payload, mask);
    var buf := MaskedFrame(fin, opcode, mask, payload) + rest;
    assert buf == head + (mask + masked + rest) == head + mask + masked + rest;
    HeaderOfEncoded(fin, opcode, |payload|, mask + masked + rest, fragmenting);
    ParseParts(buf, head, mask, masked, rest, fragmenting);
    FirstByteReads(fin, opcode);
    MaskInvolution(payload, mask);
  }

  lemma HeaderEncodes(buf: seq<Byte>, fragmenting: bool)
    requires |buf| >= 2 && ReadHeader(buf, fragmenting).Head?
    ensures var h := ReadHeader(buf, fragmenting);
            var field := LengthField(h.length, 128);
            && Permitted(buf[0] >= 128, buf[0] % 16, h.length <= 125, fragmenting) && buf[0] % 16 != 2
            && 1 + |field| == h.offset && buf[..h.offset] == [FirstByte(buf[0] >= 128, buf[0] % 16)] + field
  {
    hide Bytes, BigEndian, Pow256;
    var h := ReadHeader(buf, fragmenting);
    assert FirstByte(buf[0] >= 128, buf[0] % 16) == buf[0];
    ReadBytes(buf[2..h.offset]);
    PowersOf256();
    assert buf[..h.offset] == [buf[0], buf[1]] + buf[2..h.offset];
  }

  /** Whatever the reader accepts is such an encoding of what it delivers. */
  lemma DecodedWasEncoded(buf: seq<Byte>, fragmenting: bool)
    requires ParseFrame(buf, fragmenting).Frame?
    ensures var f := ParseFrame(buf, fragmenting);
            && Permitted(f.fin, f.opcode, |f.payload| <= 125, fragmenting)
            && buf[..f.overhead + |f.payload|] == MaskedFrame(f.fin, f.opcode, buf[f.overhead - 4..f.overhead],
                                                              f.payload)
  {
    hide ParseFrame, ReadHeader, Mask, LengthField, Permitted, FirstByte;
    ParseShape(buf, fragmenting);
    HeaderEncodes(buf, fragmenting);
    var f, h := ParseFrame(buf, fragmenting), ReadHeader(buf, fragmenting);
    var head, mask, masked := buf[..h.offset], buf[h.offset..f.overhead], buf[f.overhead..f.overhead + h.length];
    MaskInvolution(masked, mask);
    assert buf[..f.overhead + h.length] == head + mask + masked;
  }

  /** A parsed frame in terms of its header. */
  lemma ParseShape(buf: seq<Byte>, fragmenting: bool)
    requires ParseFrame(buf, fragmenting).Frame?
    ensures |buf| >= 2 && ReadHeader(buf, fragmenting).Head?
    ensures var f, h := ParseFrame(buf, fragmenting), ReadHeader(buf, fragmenting);
            && f.overhead == h.offset + 4 && |f.payload| == h.length && f.overhead + h.length <= |buf|
            && f.fin == (buf[0] >= 128) && f.opcode == buf[0] % 16
            && f.payload == Mask(buf[f.overhead..f.overhead + h.length], buf[h.offset..f.overhead])
  {
    hide ReadHeader;
  }

  /** What the first bytes decide, later bytes do not change. */
  lemma ParseIsMonotone(buf: seq<Byte>, more: seq<Byte>, fragmenting: bool)
    requires !ParseFrame(buf, fragmenting).Incomplete?
    ensures ParseFrame(buf + more, fragmenting) == ParseFrame(buf, fragmenting)
  {
    var whole := buf + more;
    HeaderIsMonotone(buf, more, fragmenting);
    hide ReadHeader;
    var h := ReadHeader(buf, fragmenting);
    if h.Head? && h.length <= MAX_FRAME_BYTES {
      var at := h.offset + 4;
      assert whole[at..at + h.length] == buf[at..at + h.length];
      assert whole[h.offset..at] == buf[h.offset..at];
    }
  }

  lemma HeaderIsMonotone(buf: seq<Byte>, more: seq<Byte>, fragmenting: bool)
    requires |buf| >= 2 && !ReadHeader(buf, fragmenting).NeedMore?
    ensures ReadHeader(buf + more, fragmenting) == ReadHeader(buf, fragmenting)
  {
    hide Permitted, BigEndian;
    var whole := buf + more;
    assert whole[0] == buf[0] && whole[1] == buf[1];
    if |buf| >= 4 { assert whole[2..4] == buf[2..4]; }
    if |buf| >= 10 { assert whole[2..10] == buf[2..10]; }
  }

  /** Reading a server frame as a client does (section 5.2 of RFC 6455): opcode
      and payload, given that the first byte is final and nothing is masked. */
  function ReadServerFrame(s: seq<Byte>): Option<(nat, seq<Byte>)> {
    if |s| < 2 || s[0] < 128 || s[0] >= 144 || s[1] >= 128 then None
    else if s[1] < 126 then (if |s| == 2 + s[1] then Some((s[0] - 128, s[2..])) else None)
    else if s[1] == 126 then (if |s| >= 4 && |s| == 4 + BigEndian(s[2..4]) then Some((s[0] - 128, s[4..])) else None)
    else (if |s| >= 10 && |s| == 10 + BigEndian(s[2..10]) then Some((s[0] - 128, s[10..])) else None)
  }

  /** What the server writes, a client reads back. */
  lemma ServerFrameReads(opcode: nat, payload: seq<Byte>)
    requires opcode < 16 && |payload| < 0x1_0000_0000_0000_0000
    ensures ReadServerFrame(ServerFrame(opcode, payload)) == Some((opcode, payload))
  {
    var n, s := |payload|, ServerFrame(opcode, payload);
    PowersOf256();
    if n < 126 {
      assert s[2..] == payload;
    } else if n <= 65535 {
      BytesRead(n, 2);
      assert s[2..4] == Bytes(n, 2) && s[4..] == payload;
    } else {
      BytesRead(n, 8);
      assert s[2..10] == Bytes(n, 8) && s[10..] == payload;
    }
  }
}
