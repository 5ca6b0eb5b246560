/** mongoose.c: WebSocket frames (sections 5.2 and 5.3 of RFC 6455) read from and
    written to a connection. */
module WebSocket {
  import opened Lz77
  import opened Bytes
  import opened Binary

  /** A frame with a single fragment; the mask, if any, has four bytes. */
  datatype Frame = Frame(first: byte, mask: seq<byte>, payload: seq<byte>) {
    predicate Ok() {
      (|mask| == 0 || |mask| == 4) && |payload| < 0x1_0000_0000_0000_0000
    }
  }

  /** What the handler is given; contentLen can be negative when a length was truncated. */
  datatype Delivery = Delivery(wsbits: byte, contentLen: int, content: seq<byte>)

  const INT_MAX := 0x7fff_ffff

  // ---- the format ----

  function Value(s: seq<byte>): nat {
    if s == [] then 0 else Value(s[..|s| - 1]) * 256 + s[|s| - 1] as int
  }

  lemma {:induction false} XorSmall(a: nat, b: nat, k: nat)
    requires a < Pow2(k) && b < Pow2(k)
    ensures Xor(a, b) < Pow2(k)
    decreases k
  {
    if k != 0 { XorSmall(a / 2, b / 2, k - 1); }
  }

  lemma ParityTwice(x: nat, y: nat)
    requires x < 2 && y < 2
    ensures ((x + y) % 2 + y) % 2 == x
  {
  }

  lemma SameHalves(a: nat, b: nat)
    requires a / 2 == b / 2 && a % 2 == b % 2
    ensures a == b
  {
  }

  lemma {:induction false} XorTwice(a: nat, b: nat)
    ensures Xor(Xor(a, b), b) == a
    decreases a + b
  {
    if a != 0 || b != 0 {
      hide Xor;
      XorTwice(a / 2, b / 2);
      XorStep(a, b);
      XorStep(Xor(a, b), b);
      ParityTwice(a % 2, b % 2);
      SameHalves(Xor(Xor(a, b), b), a);
    }
  }

  function XorByte(a: byte, b: byte): byte {
    assert Pow2(8) == 256;
    XorSmall(a, b, 8);
    Xor(a, b)
  }

  function Masked(mask: seq<byte>, data: seq<byte>): (r: seq<byte>)
    requires |mask| == 0 || |mask| == 4
    ensures |r| == |data|
  {
    if mask == [] then data else seq(|data|, i requires 0 <= i < |data| => XorByte(data[i], mask[i % 4]))
  }

  function LengthField(n: nat): (s: seq<byte>)
    requires n < 0x1_0000_0000_0000_0000
    ensures |s| == if n < 126 then 1 else if n <= 0xffff then 3 else 9
  {
    if n < 126 then [n] else if n <= 0xffff then [126] + BigEndian(n, 2) else [127] + BigEndian(n, 8)
  }

  function Encode(f: Frame): seq<byte>
    requires f.Ok()
  {
    var l := LengthField(|f.payload|);
    var top := if f.mask == [] then 0 else 128;
    [f.first] + [l[0] + top] + l[1..] + f.mask + Masked(f.mask, f.payload)
  }

  function EncodeAll(fs: seq<Frame>): seq<byte>
    requires forall f :: f in fs ==> f.Ok()
  {
    if fs == [] then [] else Encode(fs[0]) + EncodeAll(fs[1..])
  }

  /** The value of a 32-bit int after a conversion or a sum that should be n. */
  function ToInt(n: int): int {
    var m := n % 0x1_0000_0000;
    if m > INT_MAX then m - 0x1_0000_0000 else m
  }

  // ---- what deliver_websocket_frame makes of its buffer ----

  datatype Header = Header(maskLen: nat, headerLen: nat, dataLen: int) {
    predicate Ints() {
      headerLen <= 14 && -INT_MAX - 1 <= dataLen <= INT_MAX
    }

    /** frame_len is an int too: a length near INT_MAX makes it negative. */
    function FrameLen(): (r: int)
      ensures Ints() ==> r == if headerLen + dataLen <= INT_MAX then headerLen + dataLen
                              else headerLen + dataLen - 0x1_0000_0000
    {
      ToInt(headerLen + dataLen)
    }
  }

  /** The branches on the length byte, for a buffer of at least two bytes. */
  function ReadHeader(buf: seq<byte>): (h: Header)
    requires |buf| >= 2
    ensures h.headerLen <= |buf| || h.dataLen >= 0
    ensures h.Ints()
    ensures h.headerLen == 0 ==> h.dataLen == 0
    ensures h.headerLen != 0 ==> h.headerLen >= 2 + h.maskLen
    ensures h.maskLen == 0 || h.maskLen == 4
  {
    var len := buf[1] % 128;
    var maskLen := if buf[1] >= 128 then 4 else 0;
    if len < 126 && |buf| >= maskLen then Header(maskLen, 2 + maskLen, len)
    else if len == 126 && |buf| >= 4 + maskLen then Header(maskLen, 4 + maskLen, buf[2] as int * 256 + buf[3] as int)
    else if |buf| >= 10 + maskLen then Header(maskLen, 10 + maskLen, ToInt(Value(buf[2..10])))
    else Header(maskLen, 0, 0)
  }

  /** The frame at the front of the buffer, unmasked, and its length; None if it is not all there. */
  function Parse(buf: seq<byte>): Option<(Delivery, nat)> {
    if |buf| < 2 then None
    else
      var h := ReadHeader(buf);
      if 0 < h.FrameLen() <= |buf| then
        var content := if h.dataLen < 0 then [] else buf[h.headerLen..h.FrameLen()];
        Some((Delivery(buf[0], h.dataLen, Masked(buf[h.headerLen - h.maskLen..h.headerLen], content)), h.FrameLen()))
      else None
  }

  // ---- round trip ----

  lemma {:induction false} ValueOfBigEndian(n: nat, k: nat)
    requires n < Pow2(8 * k)
    ensures Value(BigEndian(n, k)) == n
    decreases k
  {
    if k != 0 {
      Pow2Add(8, 8 * k - 8);
      assert Pow2(8) == 256;
      ValueOfBigEndian(n / 256, k - 1);
      var s := BigEndian(n, k);
      assert s[..|s| - 1] == BigEndian(n / 256, k - 1);
    }
  }

  lemma MaskTwice(mask: seq<byte>, data: seq<byte>)
    requires |mask| == 0 || |mask| == 4
    ensures Masked(mask, Masked(mask, data)) == data
  {
    if mask != [] {
      forall i | 0 <= i < |data| ensures Masked(mask, Masked(mask, data))[i] == data[i] {
        XorTwice(data[i], mask[i % 4]);
        hide Xor;
      }
    }
  }

  /** Where the fields of an encoded frame lie. */
  lemma EncodedFields(f: Frame)
    requires f.Ok()
    ensures var e, l := Encode(f), |LengthField(|f.payload|)|;
            && |e| == 1 + l + |f.mask| + |f.payload| && e[0] == f.first
            && e[1] == LengthField(|f.payload|)[0] + (if f.mask == [] then 0 else 128)
            && e[2..1 + l] == LengthField(|f.payload|)[1..]
            && e[1 + l..1 + l + |f.mask|] == f.mask
            && e[1 + l + |f.mask|..] == Masked(f.mask, f.payload)
  {
  }

  lemma SameSlice(a: seq<byte>, b: seq<byte>, m: nat, i: nat, j: nat)
    requires i <= j <= m <= |a| && m <= |b| && a[..m] == b[..m]
    ensures a[i..j] == b[i..j]
  {
    assert a[i..j] == a[..m][i..j] && b[i..j] == b[..m][i..j];
  }

  /** The length byte and what follows it are read back. */
  lemma HeaderRead(f: Frame, buf: seq<byte>)
    requires f.Ok() && |f.payload| <= INT_MAX && 2 <= |buf| && (buf <= Encode(f) || Encode(f) <= buf)
    ensures var h, l := ReadHeader(buf), |LengthField(|f.payload|)|;
            || h == Header(|f.mask|, 1 + l + |f.mask|, |f.payload|)
            || (|buf| < 1 + l + |f.mask| && h == Header(|f.mask|, 0, 0))
  {
    hide Encode, Masked, Value, BigEndian, ReadHeader;
    EncodedFields(f);
    var e, n := Encode(f), |f.payload|;
    var m := if |buf| < |e| then |buf| else |e|;
    assert buf[..m] == e[..m];
    assert buf[1] == buf[..m][1] == e[1];
    var l := |LengthField(n)|;
    if |buf| >= 1 + l {
      SameSlice(buf, e, m, 2, 1 + l);
    }
    ByLength(buf, n, |f.mask|);
  }

  lemma ByLength(buf: seq<byte>, n: nat, maskLen: nat)
    requires n <= INT_MAX && |buf| >= 2 && (maskLen == 0 || maskLen == 4)
    requires buf[1] as int == LengthField(n)[0] as int + (if maskLen == 0 then 0 else 128)
    requires |buf| >= 1 + |LengthField(n)| ==> buf[2..1 + |LengthField(n)|] == LengthField(n)[1..]
    ensures var h, l := ReadHeader(buf), |LengthField(n)|;
            || h == Header(maskLen, 1 + l + maskLen, n)
            || (|buf| < 1 + l + maskLen && h == Header(maskLen, 0, 0))
  {
    hide Value, BigEndian;
    if n < 126 {
    } else if n <= 0xffff {
      if |buf| >= 4 {
        assert [buf[2], buf[3]] == buf[2..4] == BigEndian(n, 2);
        SixteenBits(n, buf[2], buf[3]);
      }
    } else if |buf| >= 10 {
      SixtyFourBits(n);
      assert buf[2..10] == BigEndian(n, 8);
    }
  }

  lemma SixtyFourBits(n: nat)
    requires n < 0x1_0000_0000_0000_0000
    ensures Value(BigEndian(n, 8)) == n
  {
    Powers();
    hide Pow2;
    ValueOfBigEndian(n, 8);
  }

  lemma Powers()
    ensures Pow2(32) == 0x1_0000_0000 && Pow2(64) == 0x1_0000_0000_0000_0000
  {
    assert Pow2(8) == 256;
    hide Pow2;
    Pow2Add(8, 8);
    Pow2Add(16, 16);
    Pow2Add(32, 32);
  }

  lemma SixteenBits(n: nat, hi: byte, lo: byte)
    requires n <= 0xffff && [hi, lo] == BigEndian(n, 2)
    ensures n == hi as int * 256 + lo as int
  {
    assert Pow2(16) == 0x1_0000 by { Pow2Add(8, 8); assert Pow2(8) == 256; }
    ValueOfBigEndian(n, 2);
    ValueNext([], hi);
    ValueNext([hi], lo);
    hide BigEndian, Value, Pow2;
    assert [] + [hi] == [hi] && [hi] + [lo] == [hi, lo];
  }

  /** A whole frame at the front of the buffer is delivered, unmasked. */
  lemma FrameParsed(f: Frame, rest: seq<byte>)
    requires f.Ok() && |Encode(f)| <= INT_MAX
    ensures Parse(Encode(f) + rest) == Some((DeliveryOf(f), |Encode(f)|))
  {
    var e, l := Encode(f), |LengthField(|f.payload|)|;
    var buf := e + rest;
    hide Encode, ReadHeader, Masked, Header.FrameLen, Parse;
    EncodedFields(f);
    HeaderRead(f, buf);
    MaskTwice(f.mask, f.payload);
    ParseCases(buf);
    assert ReadHeader(buf) == Header(|f.mask|, 1 + l + |f.mask|, |f.payload|);
    SliceOfFront(e, rest, 1 + l, 1 + l + |f.mask|);
    SliceOfFront(e, rest, 1 + l + |f.mask|, |e|);
    assert buf[0] == e[0];
  }

  lemma SliceOfFront(e: seq<byte>, rest: seq<byte>, i: nat, j: nat)
    requires i <= j <= |e|
    ensures (e + rest)[i..j] == e[i..j] && (j == |e| ==> e[i..j] == e[i..])
  {
  }

  /** ... if and only if its length is an int: a longer one is never delivered,
      or with another length. */
  lemma DeliveredIff(f: Frame, rest: seq<byte>)
    requires f.Ok()
    ensures Parse(Encode(f) + rest) == Some((DeliveryOf(f), |Encode(f)|)) <==> |Encode(f)| <= INT_MAX
  {
    if |Encode(f)| <= INT_MAX {
      FrameParsed(f, rest);
    } else {
      var buf := Encode(f) + rest;
      EncodedFields(f);
      if |f.payload| <= INT_MAX {
        HeaderRead(f, buf);
        hide Encode, ReadHeader, Masked;
        assert Parse(buf) == None;
      } else {
        LongLength(f, rest);
        LengthTruncated(|f.payload|);
      }
    }
  }

  /** A 64-bit length is read through an int. */
  lemma LongLength(f: Frame, rest: seq<byte>)
    requires f.Ok() && |f.payload| > 0xffff
    ensures ReadHeader(Encode(f) + rest).dataLen == ToInt(|f.payload|)
    ensures Parse(Encode(f) + rest).Some? ==> Parse(Encode(f) + rest).value.0.contentLen == ToInt(|f.payload|)
  {
    var e, n := Encode(f), |f.payload|;
    var buf := e + rest;
    EncodedFields(f);
    hide Encode, Value, BigEndian, Masked;
    SixtyFourBits(n);
    assert buf[2..10] == e[2..10] == BigEndian(n, 8);
    assert buf[1] == e[1];
  }

  // ---- the examples of section 5.7 of RFC 6455 ----

  const KEY: seq<byte> := [0x37, 0xfa, 0x21, 0x3d]
  const HELLO: seq<byte> := [0x48, 0x65, 0x6c, 0x6c, 0x6f]

  lemma HelloXor()
    ensures XorByte(0x48, 0x37) == 0x7f && XorByte(0x65, 0xfa) == 0x9f && XorByte(0x6c, 0x21) == 0x4d
    ensures XorByte(0x6c, 0x3d) == 0x51 && XorByte(0x6f, 0x37) == 0x58
  {
    hide Xor;
    XorH();
    XorE();
    XorL();
    XorM();
    XorO();
  }

  lemma XorH()
    ensures Xor(0x48, 0x37) == 0x7f
  {
    hide *;
    XorNone();
    XorUp(0, 1, 0, 0);
    XorUp(1, 0, 0, 1);
    XorUp(2, 0, 1, 1);
    XorUp(4, 1, 3, 0);
    XorUp(9, 0, 6, 1);
    XorUp(18, 0, 13, 1);
    XorUp(36, 0, 27, 1);
  }

  lemma XorE()
    ensures Xor(0x65, 0xfa) == 0x9f
  {
    hide *;
    XorNone();
    XorUp(0, 0, 0, 1);
    XorUp(0, 1, 1, 1);
    XorUp(1, 1, 3, 1);
    XorUp(3, 0, 7, 1);
    XorUp(6, 0, 15, 1);
    XorUp(12, 1, 31, 0);
    XorUp(25, 0, 62, 1);
    XorUp(50, 1, 125, 0);
  }

  lemma XorL()
    ensures Xor(0x6c, 0x21) == 0x4d
  {
    hide *;
    XorNone();
    XorUp(0, 1, 0, 0);
    XorUp(1, 1, 0, 1);
    XorUp(3, 0, 1, 0);
    XorUp(6, 1, 2, 0);
    XorUp(13, 1, 4, 0);
    XorUp(27, 0, 8, 0);
    XorUp(54, 0, 16, 1);
  }

  lemma XorM()
    ensures Xor(0x6c, 0x3d) == 0x51
  {
    hide *;
    XorNone();
    XorUp(0, 1, 0, 0);
    XorUp(1, 1, 0, 1);
    XorUp(3, 0, 1, 1);
    XorUp(6, 1, 3, 1);
    XorUp(13, 1, 7, 1);
    XorUp(27, 0, 15, 0);
    XorUp(54, 0, 30, 1);
  }

  lemma XorO()
    ensures Xor(0x6f, 0x37) == 0x58
  {
    hide *;
    XorNone();
    XorUp(0, 1, 0, 0);
    XorUp(1, 1, 0, 1);
    XorUp(3, 0, 1, 1);
    XorUp(6, 1, 3, 0);
    XorUp(13, 1, 6, 1);
    XorUp(27, 1, 13, 1);
    XorUp(55, 1, 27, 1);
  }

  lemma XorNone()
    ensures Xor(0, 0) == 0
  {
  }

  lemma XorUp(a: nat, p: nat, b: nat, q: nat)
    requires p < 2 && q < 2
    ensures Xor(2 * a + p, 2 * b + q) == 2 * Xor(a, b) + if p == q then 0 else 1
  {
  }

  lemma HelloMasked()
    ensures Masked(KEY, HELLO) == [0x7f, 0x9f, 0x4d, 0x51, 0x58]
  {
    HelloXor();
    hide Xor, XorByte;
    var r := Masked(KEY, HELLO);
    assert r[0] == 0x7f && r[1] == 0x9f && r[2] == 0x4d && r[3] == 0x51 && r[4] == 0x58;
  }

  /** "A single-frame masked text message", octet by octet. */
  lemma HelloFrame()
    ensures Encode(Frame(0x81, KEY, HELLO)) == [0x81, 0x85, 0x37, 0xfa, 0x21, 0x3d, 0x7f, 0x9f, 0x4d, 0x51, 0x58]
    ensures Parse([0x81, 0x85, 0x37, 0xfa, 0x21, 0x3d, 0x7f, 0x9f, 0x4d, 0x51, 0x58])
         == Some((Delivery(0x81, 5, [0x48, 0x65, 0x6c, 0x6c, 0x6f]), 11))
  {
    HelloEncoded();
    var f := Frame(0x81, KEY, HELLO);
    hide Encode, Parse, Masked;
    FrameParsed(f, []);
    assert Encode(f) + [] == Encode(f);
  }

  lemma HelloEncoded()
    ensures Encode(Frame(0x81, KEY, HELLO)) == [0x81, 0x85, 0x37, 0xfa, 0x21, 0x3d, 0x7f, 0x9f, 0x4d, 0x51, 0x58]
  {
    HelloMasked();
    hide Masked;
  }

  /** Unmasked: text, 256 bytes and 64 KiB of binary data. */
  lemma PlainFrames(data: seq<byte>)
    ensures Encode(Frame(0x81, [], HELLO)) == [0x81, 0x05, 0x48, 0x65, 0x6c, 0x6c, 0x6f]
    ensures |data| == 256 ==> Encode(Frame(0x82, [], data)) == [0x82, 0x7e, 0x01, 0x00] + data
    ensures |data| == 0x1_0000 ==>
              Encode(Frame(0x82, [], data)) == [0x82, 0x7f, 0x00, 0x00, 0x00, 0x00, 0x00, 0x01, 0x00, 0x00] + data
  {
    LongLengths();
    hide BigEndian;
  }

  lemma LongLengths()
    ensures LengthField(256) == [0x7e, 0x01, 0x00]
    ensures LengthField(0x1_0000) == [0x7f, 0x00, 0x00, 0x00, 0x00, 0x00, 0x01, 0x00, 0x00]
  {
    BigEndianNext(0, 1);
    BigEndianNext(1, 1);
    BigEndianNext(256, 2);
    BigEndianNext(1, 6);
    BigEndianNext(256, 7);
    BigEndianNext(0x1_0000, 8);
    ZeroOctets();
    hide BigEndian;
  }

  lemma BigEndianNext(n: nat, k: nat)
    requires k > 0
    ensures BigEndian(n, k) == BigEndian(n / 256, k - 1) + [n % 256]
  {
  }

  lemma ZeroOctets()
    ensures BigEndian(0, 5) == [0, 0, 0, 0, 0]
  {
    BigEndianNext(0, 1);
    BigEndianNext(0, 2);
    BigEndianNext(0, 3);
    BigEndianNext(0, 4);
    BigEndianNext(0, 5);
  }

  /** Octet j of the key goes into every fourth octet of the payload, from the j-th on. */
  lemma KeyOctet(mask: seq<byte>, other: byte, j: nat, data: seq<byte>, i: nat)
    requires |mask| == 4 && j < 4 && other != mask[j] && i < |data|
    ensures Masked(mask, data)[i] != Masked(mask[j := other], data)[i] <==> i % 4 == j
  {
    if i % 4 == j && XorByte(data[i], mask[j]) == XorByte(data[i], other) {
      XorInjective(data[i], mask[j], other);
    }
    hide Xor;
  }

  /** How long the header of a frame is. */
  function HeaderLen(f: Frame): nat
    requires f.Ok()
  {
    1 + |LengthField(|f.payload|)| + |f.mask|
  }

  /** Part of a frame is delivered if and only if its header is there and the
      frame's length, as an int, is positive and no more than what is there: never
      for a payload of at most INT_MAX bytes. */
  lemma PartDelivered(f: Frame, p: seq<byte>)
    requires f.Ok() && p < Encode(f)
    ensures Parse(p).Some? <==> HeaderLen(f) <= |p| && 0 < ToInt(|Encode(f)|) <= |p|
    ensures |f.payload| <= INT_MAX ==> Parse(p) == None
  {
    hide Encode, Parse, ReadHeader, LengthField, Masked, ToInt, Header.FrameLen;
    EncodedFields(f);
    ParseCases(p);
    if |p| >= 2 {
      var n := |f.payload|;
      if n <= INT_MAX { HeaderRead(f, p); } else { LongHeader(f, p); }
      IntSum(HeaderLen(f), n);
      FrameLenIs(Header(|f.mask|, HeaderLen(f), ToInt(n)));
      FrameLenIs(Header(|f.mask|, 0, 0));
      IntOf(|Encode(f)|);
      IntOf(n);
      ParsedWhen(p, ReadHeader(p));
    }
  }

  lemma IntOf(n: nat)
    ensures n <= INT_MAX ==> ToInt(n) == n
    ensures INT_MAX < n < 0x1_0000_0000 ==> ToInt(n) < 0
  {
  }

  lemma IntSum(a: nat, n: nat)
    ensures ToInt(a + ToInt(n)) == ToInt(a + n)
  {
  }

  lemma FrameLenIs(h: Header)
    ensures h.FrameLen() == ToInt(h.headerLen + h.dataLen)
  {
  }

  /** The header of a frame with a payload longer than 16 bits can say. */
  lemma LongHeader(f: Frame, buf: seq<byte>)
    requires f.Ok() && |f.payload| > 0xffff && 2 <= |buf| && buf <= Encode(f)
    ensures HeaderLen(f) == 10 + |f.mask|
    ensures ReadHeader(buf) == if |buf| >= HeaderLen(f) then Header(|f.mask|, HeaderLen(f), ToInt(|f.payload|))
                               else Header(|f.mask|, 0, 0)
  {
    var e, n := Encode(f), |f.payload|;
    EncodedFields(f);
    hide Encode, Value, BigEndian, Masked;
    SixtyFourBits(n);
    assert buf == e[..|buf|];
    assert buf[1] == e[1];
    if |buf| >= 10 {
      SameSlice(buf, e, |buf|, 2, 10);
    }
  }

  /** The 64-bit length goes through an int. */
  lemma LengthTruncated(n: nat)
    requires n < 0x1_0000_0000_0000_0000
    ensures ToInt(n) == n <==> n <= INT_MAX
  {
  }

  /** A header that announces 0xffffffff bytes is "delivered" at once, with length -1. */
  lemma TruncatedFrame()
    ensures var buf: seq<byte> := [0x82, 127, 0, 0, 0, 0, 255, 255, 255, 255];
            Parse(buf) == Some((Delivery(0x82, -1, []), 9))
  {
    var buf: seq<byte> := [0x82, 127, 0, 0, 0, 0, 255, 255, 255, 255];
    AllOnes();
    assert buf[2..10] == [0, 0, 0, 0, 255, 255, 255, 255];
    hide Value;
    assert ReadHeader(buf) == Header(0, 10, -1);
  }

  lemma AllOnes()
    ensures Value([0, 0, 0, 0, 255, 255, 255, 255]) == 0xffff_ffff
  {
    var z: seq<byte> := [];
    var s := z + [0] + [0] + [0] + [0];
    ValueNext(z, 0);
    ValueNext(z + [0], 0);
    ValueNext(z + [0] + [0], 0);
    ValueNext(z + [0] + [0] + [0], 0);
    ValueNext(s, 255);
    ValueNext(s + [255], 255);
    ValueNext(s + [255] + [255], 255);
    ValueNext(s + [255] + [255] + [255], 255);
    hide Value;
    assert s + [255] + [255] + [255] + [255] == [0, 0, 0, 0, 255, 255, 255, 255];
  }

  lemma ValueNext(s: seq<byte>, c: byte)
    ensures Value(s + [c]) == Value(s) * 256 + c as int
  {
    assert (s + [c])[..|s + [c]| - 1] == s;
  }

  /** Two 32-bit halves in network order. */
  lemma LongBigEndian(n: nat)
    ensures BigEndian(n, 8) == BigEndian(n / 0x1_0000_0000, 4) + BigEndian(n % 0x1_0000_0000, 4)
  {
    hide BigEndian;
    Powers();
    BigEndianSplit(n, 4, 4);
  }

  lemma {:induction false} BigEndianSplit(n: nat, j: nat, k: nat)
    ensures BigEndian(n, j + k) == BigEndian(Quotient(n, Pow2(8 * k)), j) + BigEndian(n % Pow2(8 * k), k)
    decreases k
  {
    if k == 0 {
      assert Pow2(0) == 1;
    } else {
      var p, q := Pow2(8 * k), Pow2(8 * k - 8);
      Pow2Add(8, 8 * k - 8);
      assert Pow2(8) == 256;
      BigEndianSplit(n / 256, j, k - 1);
      assert p == 256 * q;
      hide Pow2;
      Shifted(n, q);
    }
  }

  lemma Shifted(n: nat, q: nat)
    requires q > 0
    ensures n / 256 / q == n / (256 * q) && n / 256 % q == n % (256 * q) / 256 && n % (256 * q) % 256 == n % 256
  {
    var m, r := n / 256, n % 256;
    var a, b := m / q, m % q;
    assert m == q * a + b;
    MulAssoc(256, q, a);
    assert n == 256 * q * a + (256 * b + r);
    DivModUnique(n, 256 * q, a, 256 * b + r);
    DivModUnique(256 * b + r, 256, b, r);
  }

  // ---- a stream of frames ----

  /** All frames at the front of the buffer, and what is left. */
  function ParseAll(buf: seq<byte>): (seq<Delivery>, seq<byte>)
    decreases |buf|
  {
    match Parse(buf)
    case None => ([], buf)
    case Some((d, n)) =>
      ParseSize(buf);
      var r := ParseAll(buf[n..]);
      ([d] + r.0, r.1)
  }

  lemma ParseSize(buf: seq<byte>)
    requires Parse(buf).Some?
    ensures 0 < Parse(buf).value.1 <= |buf|
  {
  }

  /** Bytes that come later do not change a frame that is all there. */
  lemma ParseStable(buf: seq<byte>, more: seq<byte>)
    requires Parse(buf).Some?
    ensures Parse(buf + more) == Parse(buf)
  {
    hide ReadHeader, Masked, Parse;
    ParseCases(buf);
    ParseCases(buf + more);
    var h := ReadHeader(buf);
    HeaderStable(buf, more);
    var all := buf + more;
    assert all[h.headerLen - h.maskLen..h.headerLen] == buf[h.headerLen - h.maskLen..h.headerLen];
    if h.dataLen >= 0 {
      assert all[h.headerLen..h.FrameLen()] == buf[h.headerLen..h.FrameLen()];
    }
  }

  lemma HeaderStable(buf: seq<byte>, more: seq<byte>)
    requires |buf| >= 2 && ReadHeader(buf).headerLen != 0
    ensures ReadHeader(buf + more) == ReadHeader(buf)
  {
    var all := buf + more;
    assert all[1] == buf[1];
    if |buf| >= 10 { assert all[2..10] == buf[2..10]; }
    hide Value;
  }

  /** Delivering after each chunk is delivering once. */
  lemma {:induction false} ParseAllConcat(buf: seq<byte>, more: seq<byte>)
    ensures ParseAll(buf + more)
         == (ParseAll(buf).0 + ParseAll(ParseAll(buf).1 + more).0, ParseAll(ParseAll(buf).1 + more).1)
    decreases |buf|
  {
    hide Parse;
    if Parse(buf).Some? {
      ParseStable(buf, more);
      ParseSize(buf);
      var d, n := Parse(buf).value.0, Parse(buf).value.1;
      ParseAllConcat(buf[n..], more);
      assert (buf + more)[n..] == buf[n..] + more;
      var a, b := ParseAll(buf[n..]), ParseAll(ParseAll(buf[n..]).1 + more);
      assert [d] + (a.0 + b.0) == [d] + a.0 + b.0;
    } else {
      assert [] + ParseAll(buf + more).0 == ParseAll(buf + more).0;
    }
  }

  function DeliveryOf(f: Frame): Delivery {
    Delivery(f.first, |f.payload|, f.payload)
  }

  function Deliveries(fs: seq<Frame>): seq<Delivery> {
    if fs == [] then [] else [DeliveryOf(fs[0])] + Deliveries(fs[1..])
  }

  /** Any list of frames and the beginning of one more. */
  lemma {:induction false} FramesParsed(fs: seq<Frame>, part: seq<byte>)
    requires forall f :: f in fs ==> f.Ok() && |Encode(f)| <= INT_MAX
    requires Parse(part) == None
    ensures ParseAll(EncodeAll(fs) + part) == (Deliveries(fs), part)
    decreases |fs|
  {
    if fs == [] {
      assert [] + part == part;
    } else {
      hide Parse, Encode;
      var rest := EncodeAll(fs[1..]) + part;
      assert EncodeAll(fs) + part == Encode(fs[0]) + rest;
      FrameParsed(fs[0], rest);
      assert (Encode(fs[0]) + rest)[|Encode(fs[0])|..] == rest;
      FramesParsed(fs[1..], part);
    }
  }

  // ---- the connection ----

  /** new_len * 1.2 */
  function Enlarged(newLen: nat): nat { newLen * 6 / 5 }

  /** The most that can be spooled into a full buffer. */
  const MAX_SPOOLED := 0x6aaa_aaaa

  lemma EnlargedFits(n: nat)
    ensures Enlarged(n) <= INT_MAX <==> n <= MAX_SPOOLED
  {
  }

  class Connection {
    var buf: array<byte>    // local_iobuf
    var len: nat
    ghost var spooled: seq<byte>
    ghost var delivered: seq<Delivery>

    ghost function Contents(): seq<byte>
      requires len <= buf.Length
      reads this`buf, this`len, buf
    {
      buf[..len]
    }

    /** What was delivered, and what can still be delivered, is what the bytes
        spooled so far hold; the rest is at the end of the buffer. */
    ghost predicate Valid()
      reads this, buf
    {
      && len <= buf.Length <= INT_MAX
      && ParseAll(spooled) == (delivered + ParseAll(Contents()).0, ParseAll(Contents()).1)
    }

    constructor ()
      ensures Valid() && spooled == [] && delivered == [] && fresh(buf) && Contents() == []
    {
      buf := new byte[0];
      len := 0;
      spooled, delivered := [], [];
      new;
      assert Contents() == [];
      ParseOne([]);
      assert delivered + ParseAll([]).0 == ParseAll([]).0;
    }

    /** spool(): all of the data goes behind the bytes held, or none of it when
        the buffer cannot be made a fifth larger than what it is to hold; a size
        beyond INT_MAX cannot be asked for.  When the new length itself overflows
        it is negative and passes for small: the program then writes outside
        its buffer, which is reported here instead of done. */
    method Spool(data: seq<byte>, reallocOk: bool) returns (n: nat, overrun: bool)
      requires Valid() && |data| <= INT_MAX
      modifies this`buf, this`len, this`spooled, buf
      ensures Valid() && (buf == old(buf) || fresh(buf))
      ensures overrun <==> old(len) + |data| > INT_MAX
      ensures n == if !overrun && (data == [] || old(len) + |data| < old(buf.Length)
                                   || (reallocOk && Enlarged(old(len) + |data|) <= INT_MAX)) then |data| else 0
      ensures Contents() == old(Contents()) + data[..n] && spooled == old(spooled) + data[..n]
    {
      hide Parse, ParseAll;
      n, overrun := |data|, false;
      ParseSums(spooled, delivered, Contents(), data);
      ghost var c, t := Contents(), spooled;
      var newLen := ToInt(len + |data|);
      if data == [] {
        assert c + data[..n] == c && t + data[..n] == t;
      } else if newLen < buf.Length {
        if newLen < 0 {
          n, overrun := 0, true;
          assert c + data[..n] == c && t + data[..n] == t;
        } else {
          Append(data);
          assert data[..n] == data;
        }
      } else if reallocOk && Enlarged(newLen) <= INT_MAX {
        Grow(Enlarged(newLen));
        Append(data);
        assert data[..n] == data;
      } else {
        n := 0;
        assert c + data[..n] == c && t + data[..n] == t;
      }
    }

    /** A larger buffer with the same contents. */
    method Grow(size: nat)
      requires len <= buf.Length && len <= size
      modifies this`buf
      ensures fresh(buf) && buf.Length == size && len <= buf.Length && Contents() == old(Contents())
    {
      var p := new byte[size];
      forall k | 0 <= k < len { p[k] := buf[k]; }
      assert p[..len] == buf[..len];
      buf := p;
    }

    /** Puts data behind the bytes held. */
    method Append(data: seq<byte>)
      requires len + |data| <= buf.Length
      modifies this`len, this`spooled, buf
      ensures len <= buf.Length && Contents() == old(Contents()) + data && spooled == old(spooled) + data
    {
      forall k | 0 <= k < |data| { buf[len + k] := data[k]; }
      len := len + |data|;
      spooled := spooled + data;
    }

    /** Drops n bytes at the front, if there are as many. */
    method Discard(n: int)
      requires len <= buf.Length
      modifies this`len, buf
      ensures len <= buf.Length
      ensures Contents() == if 0 <= n <= old(len) then old(Contents())[n..] else old(Contents())
    {
      if n >= 0 && n <= len {
        forall k | 0 <= k < len - n { buf[k] := buf[n + k]; }
        len := len - n;
      }
    }

    /** Takes the mask off the payload, in place. */
    method Unmask(h: Header)
      requires h.Ints() && h.maskLen == 4 && 6 <= h.headerLen && h.dataLen >= 0 && 0 < h.FrameLen() <= len <= buf.Length
      modifies buf
      ensures buf[..h.headerLen] == old(buf[..h.headerLen]) && buf[h.FrameLen()..len] == old(buf[h.FrameLen()..len])
      ensures buf[h.headerLen..h.FrameLen()]
           == Masked(old(buf[h.headerLen - 4..h.headerLen]), old(buf[h.headerLen..h.FrameLen()]))
    {
      hide Xor;
      ghost var mask, data := buf[h.headerLen - 4..h.headerLen], buf[h.headerLen..h.FrameLen()];
      ghost var before, after := buf[..h.headerLen], buf[h.FrameLen()..len];
      var i := 0;
      while i < h.dataLen
        invariant 0 <= i <= h.dataLen
        invariant buf[..h.headerLen] == before && buf[h.FrameLen()..len] == after
        invariant forall k :: 0 <= k < i ==> buf[h.headerLen + k] == XorByte(data[k], mask[k % 4])
        invariant forall k :: i <= k < h.dataLen ==> buf[h.headerLen + k] == data[k]
      {
        assert mask[i % 4] == before[h.headerLen - 4 + i % 4] == buf[h.headerLen - 4 + i % 4];
        buf[h.headerLen + i] := XorByte(buf[h.headerLen + i], buf[h.headerLen - h.maskLen + i % 4]);
        i := i + 1;
      }
      assert buf[h.headerLen..h.FrameLen()] == Masked(mask, data);
    }

    lemma Slice(i: nat, j: nat)
      requires i <= j <= len <= buf.Length
      ensures buf[i..j] == Contents()[i..j] && (len > 0 ==> buf[0] == Contents()[0])
    {
      assert |buf[i..j]| == |Contents()[i..j]|;
      forall k | 0 <= k < j - i ensures buf[i..j][k] == Contents()[i..j][k] {
        assert buf[i..j][k] == buf[i + k];
      }
    }

    /** Delivers the frame at the front of the buffer, if it is all there, and drops it. */
    method DeliverFrame() returns (buffered: bool)
      requires Valid()
      modifies this`len, this`delivered, buf
      ensures Valid() && buffered == old(Parse(Contents())).Some?
      ensures !buffered ==> Contents() == old(Contents()) && delivered == old(delivered)
      ensures buffered ==> old(Parse(Contents())).value.1 <= |old(Contents())|
      ensures buffered ==> Contents() == old(Contents())[old(Parse(Contents())).value.1..]
      ensures buffered ==> delivered == old(delivered) + [old(Parse(Contents())).value.0]
    {
      hide Parse, ParseAll, ReadHeader, Masked, ParsedBy;
      ghost var s := Contents();
      ParseCases(s);
      if len < 2 { return false; }
      var h := ReadHeader(buf[..len]);
      ParsedWhen(s, h);
      var frameLen := h.FrameLen();
      buffered := frameLen > 0 && frameLen <= len;
      if buffered {
        Unmasked(h);
        ghost var d := Delivery(buf[0], h.dataLen, if h.dataLen < 0 then [] else buf[h.headerLen..frameLen]);
        assert Parse(s) == Some((d, frameLen));
        delivered := delivered + [d];
        Discard(frameLen);
        ParseOne(s);
        assert old(delivered) + ([d] + ParseAll(Contents()).0) == delivered + ParseAll(Contents()).0;
      }
    }

    /** Apply the mask if necessary; the content that the handler then sees. */
    method Unmasked(h: Header)
      requires len <= buf.Length && ParsedBy(Contents(), h) && 0 < h.FrameLen() <= len
      modifies buf
      ensures Contents()[h.FrameLen()..] == old(Contents())[h.FrameLen()..]
      ensures Parse(old(Contents()))
           == Some((Delivery(buf[0], h.dataLen, if h.dataLen < 0 then [] else buf[h.headerLen..h.FrameLen()]), h.FrameLen()))
    {
      hide Parse, Masked;
      ghost var s := Contents();
      if h.dataLen >= 0 { Slice(h.headerLen, h.FrameLen()); }
      Slice(h.headerLen - h.maskLen, h.headerLen);
      Slice(0, h.headerLen);
      Slice(h.FrameLen(), len);
      if h.maskLen > 0 && h.dataLen > 0 {
        Unmask(h);
      }
      MaskedNothing(s[h.headerLen - h.maskLen..h.headerLen], if h.dataLen < 0 then [] else s[h.headerLen..h.FrameLen()]);
      Slice(h.FrameLen(), len);
      assert buf[..h.headerLen][0] == buf[0] && s[..h.headerLen][0] == s[0];
    }

    /** The loop after each chunk: do {} while (deliver_websocket_frame(conn)). */
    method DeliverAll()
      requires Valid()
      modifies this`len, this`delivered, buf
      ensures Valid() && (delivered, Contents()) == ParseAll(spooled)
    {
      hide Parse, ParseAll;
      var more := true;
      while more
        invariant Valid() && (!more ==> Parse(Contents()) == None)
        decreases len, more
      {
        ghost var s := Contents();
        ParseOne(s);
        more := DeliverFrame();
      }
      ParseOne(Contents());
      assert delivered + [] == delivered;
    }
  }

  lemma ParseCases(s: seq<byte>)
    ensures |s| < 2 ==> Parse(s) == None
    ensures |s| >= 2 ==> ParsedBy(s, ReadHeader(s))
  {
    hide Masked;
  }

  ghost predicate ParsedBy(s: seq<byte>, h: Header) {
    && h.Ints() && (h.maskLen == 0 || h.maskLen == 4) && (h.headerLen != 0 ==> h.headerLen >= 2 + h.maskLen)
    && if 0 < h.FrameLen() <= |s| then
         && 0 < h.headerLen <= |s|
         && Parse(s) == Some((Delivery(s[0], h.dataLen,
                                       Masked(s[h.headerLen - h.maskLen..h.headerLen],
                                              if h.dataLen < 0 then [] else s[h.headerLen..h.FrameLen()])),
                              h.FrameLen()))
       else Parse(s) == None
  }

  lemma ParsedWhen(s: seq<byte>, h: Header)
    requires ParsedBy(s, h)
    ensures 0 < h.FrameLen() <= |s| <==> Parse(s).Some?
    ensures Parse(s).Some? ==> Parse(s).value.1 == h.FrameLen()
  {
    hide Parse, Masked;
  }

  lemma MaskedNothing(mask: seq<byte>, x: seq<byte>)
    requires |mask| == 0 || |mask| == 4
    ensures mask == [] || x == [] ==> Masked(mask, x) == x
  {
  }

  lemma ParseOne(s: seq<byte>)
    ensures Parse(s).None? ==> ParseAll(s) == ([], s)
    ensures Parse(s).Some? ==> 0 < Parse(s).value.1 <= |s|
    ensures Parse(s).Some? ==> ParseAll(s) == ([Parse(s).value.0] + ParseAll(s[Parse(s).value.1..]).0,
                                               ParseAll(s[Parse(s).value.1..]).1)
  {
    if Parse(s).Some? { ParseSize(s); }
    hide Parse;
  }

  lemma ParseSums(spooled: seq<byte>, delivered: seq<Delivery>, contents: seq<byte>, data: seq<byte>)
    requires ParseAll(spooled) == (delivered + ParseAll(contents).0, ParseAll(contents).1)
    ensures ParseAll(spooled + data) == (delivered + ParseAll(contents + data).0, ParseAll(contents + data).1)
  {
    hide Parse, ParseAll;
    ParseAllConcat(spooled, data);
    ParseAllConcat(contents, data);
    var a, b := ParseAll(contents).0, ParseAll(ParseAll(contents).1 + data).0;
    assert delivered + a + b == delivered + (a + b);
  }

  // ---- writing ----

  /** Four bytes in network order. */
  method PutLong(copy: array<byte>, at: nat, v: nat)
    requires at + 4 <= copy.Length && v < 0x1_0000_0000
    modifies copy
    ensures copy[..at] == old(copy[..at]) && copy[at..at + 4] == BigEndian(v, 4)
  {
    copy[at] := v / 0x100_0000;
    copy[at + 1] := v / 0x1_0000 % 256;
    copy[at + 2] := v / 0x100 % 256;
    copy[at + 3] := v % 256;
    FourBytes(v);
  }

  lemma FourBytes(v: nat)
    requires v < 0x1_0000_0000
    ensures BigEndian(v, 4) == [v / 0x100_0000, v / 0x1_0000 % 256, v / 0x100 % 256, v % 256]
  {
    var a, b, c := v / 256, v / 256 / 256, v / 256 / 256 / 256;
    assert b == v / 0x1_0000 && c == v / 0x100_0000;
    assert BigEndian(c, 1) == [c];
    assert BigEndian(b, 2) == BigEndian(c, 1) + [b % 256];
    assert BigEndian(a, 3) == BigEndian(b, 2) + [a % 256];
  }

  lemma TwoBytes(v: nat)
    requires v <= 0xffff
    ensures BigEndian(v, 2) == [v / 256, v % 256]
  {
    assert BigEndian(v / 256, 1) == [v / 256];
  }

  /** The length bytes of mg_websocket_write; returns where the data goes. */
  method PutLength(copy: array<byte>, n: nat) returns (at: nat)
    requires copy.Length == n + 10 && n < 0x1_0000_0000_0000_0000
    modifies copy
    ensures at == 1 + |LengthField(n)| && copy[0] == old(copy[0]) && copy[1..at] == LengthField(n)
  {
    hide BigEndian;
    if n < 126 {
      copy[1] := n;
      at := 2;
      assert copy[1..2] == [copy[1]];
    } else if n <= 0xffff {
      copy[1] := 126;
      copy[2], copy[3] := n / 256, n % 256;
      at := 4;
      TwoBytes(n);
      assert copy[1..4] == [copy[1]] + [copy[2], copy[3]];
    } else {
      copy[1] := 127;
      PutLong(copy, 2, n / 0x1_0000_0000);
      ghost var head := copy[..6];
      assert head[..2] == copy[..2] && head[1] == 127 && head[0] == old(copy[0]);
      PutLong(copy, 6, n % 0x1_0000_0000);
      at := 10;
      LongBigEndian(n);
      assert copy[..6] == head && copy[2..6] == head[2..6] && copy[1] == head[1] && copy[0] == head[0];
      assert copy[1..10] == [127] + (copy[2..6] + copy[6..10]);
    }
  }

  /** mg_websocket_write(): the bytes it passes on are one unmasked frame. */
  method Write(opcode: int, data: seq<byte>) returns (copy: array<byte>, copyLen: nat)
    requires |data| < 0x1_0000_0000_0000_0000
    ensures copyLen <= copy.Length && copy[..copyLen] == Encode(Frame(0x80 + opcode % 16, [], data))
  {
    hide BigEndian;
    copy := new byte[|data| + 10];
    copy[0] := 0x80 + opcode % 16;
    var at := PutLength(copy, |data|);
    ghost var head := copy[..at];
    forall k | 0 <= k < |data| { copy[at + k] := data[k]; }
    copyLen := at + |data|;
    assert copy[..at] == head;
    ghost var l := LengthField(|data|);
    assert head == [copy[0]] + l && l == [l[0]] + l[1..];
    assert copy[..copyLen] == head + data;
  }

  // ---- any chunks ----

  /** What stays in the buffer is less than one frame. */
  lemma {:induction false} LessThanOne(fs: seq<Frame>, last: Frame, p: seq<byte>, bound: nat)
    requires forall f :: f in fs + [last] ==> f.Ok() && |Encode(f)| <= bound <= INT_MAX
    requires p <= EncodeAll(fs + [last])
    ensures |ParseAll(p).1| <= bound
    decreases |fs|
  {
    hide Parse, Encode, EncodeAll, ParseAll;
    ParseOne(p);
    if |p| > bound {
      var all := fs + [last];
      AllIsOneThenRest(all);
      var f := all[0];
      assert f in all;
      var n := |Encode(f)|;
      var rest := p[n..];
      var tail := EncodeAll(all[1..]);
      assert Encode(f) + rest == p by { assert p == (Encode(f) + tail)[..|p|]; }
      assert rest <= tail by { assert p == (Encode(f) + tail)[..|p|]; }
      FrameParsed(f, rest);
      if fs == [] {
        assert all[1..] == [];
        NoFrames();
        assert false;
      } else {
        assert all[1..] == fs[1..] + [last];
        LessThanOne(fs[1..], last, rest, bound);
      }
    } else {
      ParseAllShorter(p);
    }
  }

  lemma NoFrames()
    ensures EncodeAll([]) == []
  {
  }

  lemma AllIsOneThenRest(fs: seq<Frame>)
    requires fs != [] && forall f :: f in fs ==> f.Ok()
    ensures EncodeAll(fs) == Encode(fs[0]) + EncodeAll(fs[1..])
  {
    hide Encode;
  }

  lemma {:induction false} ParseAllShorter(p: seq<byte>)
    ensures |ParseAll(p).1| <= |p|
    decreases |p|
  {
    hide Parse;
    ParseOne(p);
    if Parse(p).Some? { ParseAllShorter(p[Parse(p).value.1..]); }
  }

  lemma {:induction false} EncodeAllSnoc(fs: seq<Frame>, f: Frame)
    requires f.Ok() && forall g :: g in fs ==> g.Ok()
    ensures EncodeAll(fs + [f]) == EncodeAll(fs) + Encode(f)
    decreases |fs|
  {
    hide Encode;
    if fs == [] {
      assert fs + [f] == [f] && [] + Encode(f) == Encode(f) && EncodeAll([f][1..]) == [];
    } else {
      assert (fs + [f])[1..] == fs[1..] + [f];
      EncodeAllSnoc(fs[1..], f);
    }
  }

  lemma {:induction false} ConcatPrefix(chunks: seq<seq<byte>>, i: nat)
    requires i <= |chunks|
    ensures Concat(chunks[..i]) <= Concat(chunks)
    decreases |chunks|
  {
    if i < |chunks| {
      assert chunks[..|chunks| - 1][..i] == chunks[..i];
      ConcatPrefix(chunks[..|chunks| - 1], i);
    } else {
      assert chunks[..i] == chunks;
    }
  }

  /** How many bytes wait in the buffer before chunk i. */
  function Pending(chunks: seq<seq<byte>>, i: nat): nat
    requires i <= |chunks|
  {
    |ParseAll(Concat(chunks[..i])).1|
  }

  /** Never more than the longest frame. */
  lemma PendingWithin(chunks: seq<seq<byte>>, i: nat, fs: seq<Frame>, next: Frame, part: seq<byte>, longest: nat)
    requires i <= |chunks| && longest <= INT_MAX
    requires forall f :: f in fs + [next] ==> f.Ok() && |Encode(f)| <= longest
    requires part < Encode(next) && Concat(chunks) == EncodeAll(fs) + part
    ensures Pending(chunks, i) <= longest
  {
    hide ParseAll, Encode, EncodeAll;
    assert next in fs + [next];
    assert forall f :: f in fs ==> f in fs + [next];
    EncodeAllSnoc(fs, next);
    ConcatPrefix(chunks, i);
    var p := Concat(chunks[..i]);
    assert p <= EncodeAll(fs + [next]) by {
      assert EncodeAll(fs) + part <= EncodeAll(fs) + Encode(next);
    }
    LessThanOne(fs, next, p, longest);
  }

  /** Frames arriving in arbitrary chunks are delivered one by one, with their
      first byte and unmasked payload, as soon as they are complete; what is not
      yet complete is what the buffer holds.  A chunk is lost only if memory is
      refused, or if with the bytes waiting it is more than can be spooled. */
  method Receive(chunks: seq<seq<byte>>, memory: seq<bool>, ghost fs: seq<Frame>, ghost next: Frame, ghost part: seq<byte>)
    returns (conn: Connection, lost: bool)
    requires |memory| == |chunks|
    requires forall f :: f in fs ==> f.Ok() && |Encode(f)| <= INT_MAX
    requires next.Ok() && |next.payload| <= INT_MAX && part < Encode(next)
    requires Concat(chunks) == EncodeAll(fs) + part
    requires forall i :: 0 <= i < |chunks| ==> |chunks[i]| <= INT_MAX
    ensures conn.Valid()
    ensures lost ==> exists i :: 0 <= i < |chunks| && (!memory[i] || Pending(chunks, i) + |chunks[i]| > MAX_SPOOLED)
    ensures !lost ==> conn.delivered == Deliveries(fs) && conn.Contents() == part
  {
    hide Parse, ParseAll, Encode, EncodeAll;
    conn := new Connection();
    ParseOne([]);
    for i := 0 to |chunks|
      invariant conn.Valid() && fresh(conn) && fresh(conn.buf)
      invariant conn.spooled == Concat(chunks[..i])
      invariant (conn.delivered, conn.Contents()) == ParseAll(conn.spooled)
    {
      assert conn.len == |conn.Contents()| == Pending(chunks, i);
      EnlargedFits(conn.len + |chunks[i]|);
      var n, overrun := conn.Spool(chunks[i], memory[i]);
      if overrun || n < |chunks[i]| { return conn, true; }
      assert chunks[..i + 1][..i] == chunks[..i];
      assert chunks[i][..n] == chunks[i];
      conn.DeliverAll();
    }
    lost := false;
    assert chunks[..|chunks|] == chunks;
    PartDelivered(next, part);
    FramesParsed(fs, part);
  }
}
