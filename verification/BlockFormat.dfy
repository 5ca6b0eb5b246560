/** How a deflate stream is written, bit by bit, after RFC 1951 alone: the order of
    the bits (section 3.1.1), stored blocks (3.2.4), lengths and distances
    (3.2.5), and the code lengths of a dynamic block (3.2.7).  The codes themselves
    are parameters: any word for any symbol. */
module BlockFormat {
  import opened Lz77
  import opened Binary

  // ---- bits ----

  /** A number in k bits, least significant bit first. */
  function Field(v: nat, k: nat): (s: seq<bool>)
    ensures |s| == k
  {
    if k == 0 then [] else [v % 2 == 1] + Field(v / 2, k - 1)
  }

  /** Bytes as bits: every byte from its least significant bit on. */
  function BitsOf(bytes: seq<byte>): (s: seq<bool>)
    ensures |s| == 8 * |bytes|
  {
    if bytes == [] then [] else Field(bytes[0], 8) + BitsOf(bytes[1..])
  }

  /** Each of some numbers in k bits. */
  function Fields(vs: seq<nat>, k: nat): (s: seq<bool>)
    ensures |s| == |vs| * k
  {
    if vs == [] then [] else
      assert |vs| * k == k + (|vs| - 1) * k;
      Field(vs[0], k) + Fields(vs[1..], k)
  }

  // ---- lengths and distances ----

  /** A symbol with the least value it stands for and its number of extra bits. */
  datatype Range = Range(symbol: nat, least: nat, extra: nat)

  const LENGTHS := LENGTHS1 + LENGTHS2 + LENGTHS3

  const LENGTHS1: seq<Range> := [
    Range(257, 3, 0), Range(258, 4, 0), Range(259, 5, 0), Range(260, 6, 0), Range(261, 7, 0),
    Range(262, 8, 0), Range(263, 9, 0), Range(264, 10, 0), Range(265, 11, 1), Range(266, 13, 1)]

  const LENGTHS2: seq<Range> := [
    Range(267, 15, 1), Range(268, 17, 1), Range(269, 19, 2), Range(270, 23, 2), Range(271, 27, 2),
    Range(272, 31, 2), Range(273, 35, 3), Range(274, 43, 3), Range(275, 51, 3), Range(276, 59, 3)]

  const LENGTHS3: seq<Range> := [
    Range(277, 67, 4), Range(278, 83, 4), Range(279, 99, 4), Range(280, 115, 4), Range(281, 131, 5),
    Range(282, 163, 5), Range(283, 195, 5), Range(284, 227, 5), Range(285, 258, 0)]

  const DISTANCES := DISTANCES1 + DISTANCES2 + DISTANCES3

  const DISTANCES1: seq<Range> := [
    Range(0, 1, 0), Range(1, 2, 0), Range(2, 3, 0), Range(3, 4, 0), Range(4, 5, 1),
    Range(5, 7, 1), Range(6, 9, 2), Range(7, 13, 2), Range(8, 17, 3), Range(9, 25, 3)]

  const DISTANCES2: seq<Range> := [
    Range(10, 33, 4), Range(11, 49, 4), Range(12, 65, 5), Range(13, 97, 5), Range(14, 129, 6),
    Range(15, 193, 6), Range(16, 257, 7), Range(17, 385, 7), Range(18, 513, 8), Range(19, 769, 8)]

  const DISTANCES3: seq<Range> := [
    Range(20, 1025, 9), Range(21, 1537, 9), Range(22, 2049, 10), Range(23, 3073, 10), Range(24, 4097, 11),
    Range(25, 6145, 11), Range(26, 8193, 12), Range(27, 12289, 12), Range(28, 16385, 13), Range(29, 24577, 13)]

  /** s is the symbol after r, for the values after those of r. */
  predicate Next(r: Range, s: Range) {
    s.symbol == r.symbol + 1 && s.least == r.least + Pow2(r.extra)
  }

  /** The ranges of lengths follow each other from 3 to 258, which also has a symbol of its own. */
  lemma LengthsTile1()
    ensures Next(LENGTHS[0], LENGTHS[1]) && Next(LENGTHS[1], LENGTHS[2])
    ensures Next(LENGTHS[2], LENGTHS[3]) && Next(LENGTHS[3], LENGTHS[4])
    ensures Next(LENGTHS[4], LENGTHS[5]) && Next(LENGTHS[5], LENGTHS[6])
    ensures Next(LENGTHS[6], LENGTHS[7]) && Next(LENGTHS[7], LENGTHS[8])
    ensures Next(LENGTHS[8], LENGTHS[9])
    ensures LENGTHS[0] == Range(257, 3, 0)
  {
    hide Pow2;
    SmallPowers();
  }

  lemma LengthsTile2()
    ensures Next(LENGTHS[9], LENGTHS[10]) && Next(LENGTHS[10], LENGTHS[11])
    ensures Next(LENGTHS[11], LENGTHS[12]) && Next(LENGTHS[12], LENGTHS[13])
    ensures Next(LENGTHS[13], LENGTHS[14]) && Next(LENGTHS[14], LENGTHS[15])
    ensures Next(LENGTHS[15], LENGTHS[16]) && Next(LENGTHS[16], LENGTHS[17])
    ensures Next(LENGTHS[17], LENGTHS[18]) && Next(LENGTHS[18], LENGTHS[19])
  {
    hide Pow2;
    SmallPowers();
  }

  lemma LengthsTile3()
    ensures Next(LENGTHS[19], LENGTHS[20]) && Next(LENGTHS[20], LENGTHS[21])
    ensures Next(LENGTHS[21], LENGTHS[22]) && Next(LENGTHS[22], LENGTHS[23])
    ensures Next(LENGTHS[23], LENGTHS[24]) && Next(LENGTHS[24], LENGTHS[25])
    ensures Next(LENGTHS[25], LENGTHS[26]) && Next(LENGTHS[26], LENGTHS[27])
    ensures LENGTHS[27] == Range(284, 227, 5) && LENGTHS[28] == Range(285, 258, 0)
  {
    hide Pow2;
    SmallPowers();
  }

  /** The ranges of distances follow each other from 1 to 32768. */
  lemma DistancesStart()
    ensures Next(DISTANCES[0], DISTANCES[1])
    ensures DISTANCES[0] == Range(0, 1, 0)
  {
    hide Pow2;
    SmallPowers();
  }

  lemma DistancesTile0()
    ensures Next(DISTANCES[1], DISTANCES[2]) && Next(DISTANCES[2], DISTANCES[3])
    ensures Next(DISTANCES[3], DISTANCES[4])
  {
    hide Pow2;
    SmallPowers();
  }

  lemma DistancesTile1()
    ensures Next(DISTANCES[4], DISTANCES[5]) && Next(DISTANCES[5], DISTANCES[6])
    ensures Next(DISTANCES[6], DISTANCES[7]) && Next(DISTANCES[7], DISTANCES[8])
    ensures Next(DISTANCES[8], DISTANCES[9])
  {
    hide Pow2;
    SmallPowers();
  }

  lemma DistancesTile2()
    ensures Next(DISTANCES[9], DISTANCES[10]) && Next(DISTANCES[10], DISTANCES[11])
    ensures Next(DISTANCES[11], DISTANCES[12]) && Next(DISTANCES[12], DISTANCES[13])
    ensures Next(DISTANCES[13], DISTANCES[14]) && Next(DISTANCES[14], DISTANCES[15])
    ensures Next(DISTANCES[15], DISTANCES[16]) && Next(DISTANCES[16], DISTANCES[17])
    ensures Next(DISTANCES[17], DISTANCES[18]) && Next(DISTANCES[18], DISTANCES[19])
  {
    hide Pow2;
    SmallPowers();
  }

  lemma DistancesTile3()
    ensures Next(DISTANCES[19], DISTANCES[20]) && Next(DISTANCES[20], DISTANCES[21])
    ensures Next(DISTANCES[21], DISTANCES[22]) && Next(DISTANCES[22], DISTANCES[23])
    ensures Next(DISTANCES[23], DISTANCES[24]) && Next(DISTANCES[24], DISTANCES[25])
    ensures Next(DISTANCES[25], DISTANCES[26]) && Next(DISTANCES[26], DISTANCES[27])
    ensures Next(DISTANCES[27], DISTANCES[28]) && Next(DISTANCES[28], DISTANCES[29])
    ensures DISTANCES[29].least + Pow2(DISTANCES[29].extra) == 0x8001
  {
    hide Pow2;
    SmallPowers();
  }

  lemma SmallPowers()
    ensures Pow2(0) == 1 && Pow2(1) == 2 && Pow2(2) == 4 && Pow2(3) == 8 && Pow2(4) == 16 && Pow2(5) == 32 && Pow2(6) == 64
    ensures Pow2(7) == 128 && Pow2(8) == 256 && Pow2(9) == 512 && Pow2(10) == 1024 && Pow2(11) == 2048 && Pow2(12) == 4096
    ensures Pow2(13) == 8192
  {
    assert Pow2(7) == 128;
  }

  /** A word for every symbol. */
  type Words = nat -> seq<bool>

  /** The words for lengths (and literals) and for distances, and the ranges that
      the writer picks for them. */
  datatype Coding = Coding(lenWord: Words, distWord: Words, lenRange: nat -> Range, distRange: nat -> Range)

  /** v is one of the values of r. */
  predicate InRange(r: Range, v: nat, ranges: seq<Range>) {
    r in ranges && r.least <= v < r.least + Pow2(r.extra)
  }

  predicate TokenOk(c: Coding, t: Token) {
    t.Match? ==> InRange(c.lenRange(t.len), t.len, LENGTHS) && InRange(c.distRange(t.dist), t.dist, DISTANCES)
  }

  function TokenBits(c: Coding, t: Token): seq<bool>
    requires TokenOk(c, t)
  {
    match t
    case Literal(b) => c.lenWord(b)
    case Match(dist, len) =>
      var l, d := c.lenRange(len), c.distRange(dist);
      c.lenWord(l.symbol) + Field(len - l.least, l.extra) + (c.distWord(d.symbol) + Field(dist - d.least, d.extra))
  }

  const END_OF_BLOCK := 256

  function TokensBits(c: Coding, ts: seq<Token>): seq<bool>
    requires forall t :: t in ts ==> TokenOk(c, t)
  {
    if ts == [] then [] else TokenBits(c, ts[0]) + TokensBits(c, ts[1..])
  }

  // ---- the code lengths of a dynamic block ----

  /** "16, 17, 18, 0, 8, 7, 9, 6, 10, 5, 11, 4, 12, 3, 13, 2, 14, 1, 15" */
  function Transmitted(cl: seq<nat>): (s: seq<nat>)
    requires |cl| == 19
    ensures |s| == 19
  {
    [cl[16], cl[17], cl[18], cl[0], cl[8], cl[7], cl[9], cl[6], cl[10], cl[5],
     cl[11], cl[4], cl[12], cl[3], cl[13], cl[2], cl[14], cl[1], cl[15]]
  }

  /** A code length, or a run of them. */
  datatype Item = Length(n: nat) | CopyLast(times: nat) | FewZeros(times: nat) | ManyZeros(times: nat) {
    predicate Ok() {
      match this
      case Length(n) => n <= 15
      case CopyLast(times) => 3 <= times <= 6
      case FewZeros(times) => 3 <= times <= 10
      case ManyZeros(times) => 11 <= times <= 138
    }

    function Symbol(): nat {
      match this
      case Length(n) => n
      case CopyLast(_) => 16
      case FewZeros(_) => 17
      case ManyZeros(_) => 18
    }

    function Extra(): seq<bool>
      requires Ok()
    {
      match this
      case Length(_) => []
      case CopyLast(times) => Field(times - 3, 2)
      case FewZeros(times) => Field(times - 3, 3)
      case ManyZeros(times) => Field(times - 11, 7)
    }
  }

  function Times(n: nat, len: nat): (s: seq<nat>)
    ensures |s| == n
  {
    seq(n, _ => len)
  }

  /** The lengths so far and what an item makes of them; None when there is no last length. */
  function AddItem(lens: seq<nat>, item: Item): Option<seq<nat>> {
    match item
    case Length(n) => Some(lens + [n])
    case CopyLast(times) => if lens == [] then None else Some(lens + Times(times, lens[|lens| - 1]))
    case FewZeros(times) => Some(lens + Times(times, 0))
    case ManyZeros(times) => Some(lens + Times(times, 0))
  }

  function AddItems(lens: seq<nat>, items: seq<Item>): Option<seq<nat>>
    decreases |items|
  {
    if items == [] then Some(lens) else
      match AddItem(lens, items[0])
      case None => None
      case Some(more) => AddItems(more, items[1..])
  }

  function ItemsBits(w: Words, items: seq<Item>): seq<bool>
    requires forall x :: x in items ==> x.Ok()
  {
    if items == [] then [] else w(items[0].Symbol()) + items[0].Extra() + ItemsBits(w, items[1..])
  }

  // ---- blocks ----

  datatype Codes =
    | FixedCodes
    | DynamicCodes(nlen: nat, ndist: nat, ncode: nat, cl: seq<nat>, clWord: Words, items: seq<Item>)
  {
    predicate Ok() {
      DynamicCodes? ==>
        && 257 <= nlen <= 286 && 1 <= ndist <= 30 && 4 <= ncode <= 19 && |cl| == 19
        && (forall v :: v in cl ==> v < 8)
        && (forall i :: ncode <= i < 19 ==> Transmitted(cl)[i] == 0)
        && (forall x :: x in items ==> x.Ok())
    }

    function Kind(): nat { if FixedCodes? then 1 else 2 }

    function Bits(): seq<bool>
      requires Ok()
    {
      if FixedCodes? then []
      else
        Field(nlen - 257, 5) + (Field(ndist - 1, 5) + (Field(ncode - 4, 4)
        + (Fields(Transmitted(cl)[..ncode], 3) + ItemsBits(clWord, items))))
    }
  }

  /** A block as it is written; what a stored block is padded with does not matter. */
  datatype Written =
    | StoredBlock(pad: seq<bool>, raw: seq<byte>)
    | CodedBlock(codes: Codes, coding: Coding, tokens: seq<Token>)
  {
    /** `pos` bits have been written before. */
    predicate Ok(pos: nat) {
      match this
      case StoredBlock(pad, raw) => |pad| < 8 && (pos + 3 + |pad|) % 8 == 0 && |raw| <= 0xffff
      case CodedBlock(codes, coding, tokens) => codes.Ok() && forall t :: t in tokens ==> TokenOk(coding, t)
    }

    function Body(pos: nat): seq<bool>
      requires Ok(pos)
    {
      match this
      case StoredBlock(pad, raw) => pad + (Field(|raw|, 16) + (Field(0xffff - |raw|, 16) + BitsOf(raw)))
      case CodedBlock(codes, coding, tokens) =>
        codes.Bits() + (TokensBits(coding, tokens) + coding.lenWord(END_OF_BLOCK))
    }

    function Bits(pos: nat, last: bool): seq<bool>
      requires Ok(pos)
    {
      Field(if last then 1 else 0, 1) + (Field(if StoredBlock? then 0 else codes.Kind(), 2) + Body(pos))
    }
  }

  /** Blocks one after the other; the last one is marked if the stream is closed. */
  predicate StreamOk(ws: seq<Written>, pos: nat, closed: bool)
    decreases |ws|
  {
    ws != [] ==> ws[0].Ok(pos) && StreamOk(ws[1..], pos + |ws[0].Bits(pos, closed && |ws| == 1)|, closed)
  }

  function StreamBits(ws: seq<Written>, pos: nat, closed: bool): seq<bool>
    requires StreamOk(ws, pos, closed)
    decreases |ws|
  {
    if ws == [] then [] else
      var b := ws[0].Bits(pos, closed && |ws| == 1);
      b + StreamBits(ws[1..], pos + |b|, closed)
  }

  /** Whole bytes from bits, filled up with zeros. */
  function Packed(s: seq<bool>): seq<byte>
    decreases |s|
  {
    if s == [] then [] else if |s| < 8 then [ByteOf(s)] else [ByteOf(s[..8])] + Packed(s[8..])
  }

  function ByteOf(s: seq<bool>): byte
    requires |s| <= 8
  {
    NumberBound(s);
    Pow2Monotone(|s|, 8);
    assert Pow2(8) == 256;
    Number(s)
  }

  function Number(s: seq<bool>): nat {
    if s == [] then 0 else (if s[0] then 1 else 0) + 2 * Number(s[1..])
  }

  lemma {:induction false} NumberBound(s: seq<bool>)
    ensures Number(s) < Pow2(|s|)
    decreases |s|
  {
    if s != [] { NumberBound(s[1..]); }
  }

  lemma {:induction false} NumberOfField(v: nat, k: nat)
    requires v < Pow2(k)
    ensures Number(Field(v, k)) == v
    decreases k
  {
    if k != 0 { NumberOfField(v / 2, k - 1); }
  }

  lemma {:induction false} NumberOfTwo(s: seq<bool>, t: seq<bool>)
    ensures Number(s + t) == Number(s) + Pow2(|s|) * Number(t)
    decreases |s|
  {
    if s == [] {
      assert s + t == t;
    } else {
      NumberOfTwo(s[1..], t);
      assert (s + t)[1..] == s[1..] + t;
      MulAssoc(2, Pow2(|s| - 1), Number(t));
    }
  }

  /** Packing loses nothing. */
  lemma {:induction false} PackedBack(s: seq<bool>)
    requires |s| % 8 == 0
    ensures BitsOf(Packed(s)) == s
    decreases |s|
  {
    if s != [] {
      PackedBack(s[8..]);
      FieldOfNumber(s[..8]);
      assert Packed(s)[1..] == Packed(s[8..]) && s == s[..8] + s[8..];
    }
  }

  lemma {:induction false} FieldOfNumber(s: seq<bool>)
    ensures Field(Number(s), |s|) == s
    decreases |s|
  {
    if s != [] {
      FieldOfNumber(s[1..]);
      assert s == [s[0]] + s[1..];
    }
  }
}
