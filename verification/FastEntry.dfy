/** inffast.c lists "state->bits < 8" among its entry assumptions.  A call of
    inflate that runs out of input inside a code of 9 or more bits leaves 8 or
    more bits held, and the next call enters inflate_fast with them: for every
    table that gives a literal such a code EntersHolding does so, and FixedCode is
    such a code of the fixed table.  Every entry has fewer than 8 bits if no
    literal/length code is longer than 8 bits, and bit strings alone do not allow
    more (CodeTables.CompletedWithin, Inflate.InflateState.EntryBits).  What
    holds on every entry is Inflate.InflateState.LenHeld: fewer than 8 bits, or
    bits that complete no code; from that the bytes returned at the end are still
    bytes of the same call (Inflate.InflateState.InflateFast). */
module FastEntry {
  import opened Lz77
  import opened Binary
  import opened BitSource
  import opened CodeTables
  import opened InflateSpec
  import opened Inflate

  // ---- an input that ends inside a long code ----

  /** The `len` bits w are the code of a literal, and more than 8. */
  ghost predicate LongLiteral(t: Table, w: nat, len: nat) {
    && TableOk(t) && 9 <= len && w < Pow2(len)
    && Decode(t, Bits(w, len)).Some?
    && Decode(t, Bits(w, len)).value.0.op == 0 && Decode(t, Bits(w, len)).value.1 == len
  }

  ghost function LiteralOf(t: Table, w: nat, len: nat): Code
    requires LongLiteral(t, w, len)
  {
    Decode(t, Bits(w, len)).value.0
  }

  /** So many codes and so many bits of one more, behind a block header of three
      bits, end at a byte. */
  function Copies(len: nat): nat
    requires 9 <= len <= 15
  {
    match len
    case 9 => 5
    case 10 => 2
    case 11 => 7
    case 12 => 1
    case 13 => 1
    case 14 => 2
    case 15 => 3
  }

  function Part(len: nat): (p: nat)
    requires 9 <= len <= 15
    ensures 8 <= p < len && (3 + Copies(len) * len + p) % 8 == 0
  {
    if len % 2 == 1 then 8 else 9
  }

  function Number(w: nat, len: nat, k: nat, p: nat): nat
    decreases k
  {
    if k == 0 then w % Pow2(p) else w + Pow2(len) * Number(w, len, k - 1, p)
  }

  /** k times the code, then its first p bits. */
  function Codes(w: nat, len: nat, k: nat, p: nat): Bits {
    Bits(Number(w, len, k, p), k * len + p)
  }

  lemma CodesNext(w: nat, len: nat, k: nat, p: nat)
    requires k > 0 && w < Pow2(len)
    ensures Starts(Bits(w, len), Codes(w, len, k, p)) && len <= Codes(w, len, k, p).n
    ensures Codes(w, len, k, p).Drop(len) == Codes(w, len, k - 1, p)
  {
    var q := Pow2(len);
    var n := Number(w, len, k - 1, p);
    assert k * len == (k - 1) * len + len && (k - 1) * len >= 0;
    DivModUnique(w + q * n, q, n, w);
    SmallMod(w, len);
    hide Pow2;
  }

  lemma {:induction false} NumberBound(w: nat, len: nat, k: nat, p: nat)
    requires w < Pow2(len)
    ensures Number(w, len, k, p) < Pow2(k * len + p)
    decreases k
  {
    if k != 0 {
      NumberBound(w, len, k - 1, p);
      var q, m, n := Pow2(len), Pow2((k - 1) * len + p), Number(w, len, k - 1, p);
      assert k * len + p == len + ((k - 1) * len + p);
      Pow2Add(len, (k - 1) * len + p);
      hide Pow2, Number;
      BelowProduct(q, m, w, n);
    }
  }

  lemma BelowProduct(q: nat, m: nat, w: nat, n: nat)
    requires w < q && n < m
    ensures w + q * n < q * m
  {
    assert q * m == q * n + q * (m - n) by { MulDistributes(n, m - n, q); }
    MulGrows(m - n, q);
  }

  /** A number as n bytes, least significant first. */
  function BytesOf(u: nat, n: nat): (s: seq<byte>)
    ensures |s| == n
    decreases n
  {
    if n == 0 then [] else [u % 256] + BytesOf(u / 256, n - 1)
  }

  lemma {:induction false} LEOfBytes(u: nat, n: nat)
    requires u < Pow2(8 * n)
    ensures LE(BytesOf(u, n)) == u
    decreases n
  {
    if n != 0 {
      Pow2Add(8, 8 * n - 8);
      assert Pow2(8) == 256;
      hide Pow2;
      LEOfBytes(u / 256, n - 1);
      assert BytesOf(u, n)[1..] == BytesOf(u / 256, n - 1);
    }
  }

  /** A fixed block (header bits 0, 1, 0), the codes and the part of one more. */
  function Input(w: nat, len: nat): (s: seq<byte>)
    requires 9 <= len <= 15
    ensures |s| == Bytes(len)
  {
    BytesOf(2 + 8 * Number(w, len, Copies(len), Part(len)), Bytes(len))
  }

  function Bytes(len: nat): (n: nat)
    requires 9 <= len <= 15
    ensures 8 * n == 3 + (Copies(len) * len + Part(len))
  {
    (3 + Copies(len) * len + Part(len)) / 8
  }

  lemma InputBits(w: nat, len: nat)
    requires 9 <= len <= 15 && w < Pow2(len)
    ensures var b := Bits(0, 0).Append(Input(w, len));
            && b.n >= 3 && b.Peek(1) == 0 && b.Drop(1).Peek(2) == 1
            && b.Drop(3) == Codes(w, len, Copies(len), Part(len))
  {
    hide Pow2, Number, Copies, Part, Bytes, BytesOf, Bits.Peek, Bits.Drop, Bits.Append;
    NumberBound(w, len, Copies(len), Part(len));
    InputOf(Input(w, len), Codes(w, len, Copies(len), Part(len)));
  }

  lemma InputOf(s: seq<byte>, c: Bits)
    requires c.u < Pow2(c.n) && 8 * |s| == 3 + c.n && s == BytesOf(2 + 8 * c.u, |s|)
    ensures var b := Bits(0, 0).Append(s);
            b.n >= 3 && b.Peek(1) == 0 && b.Drop(1).Peek(2) == 1 && b.Drop(3) == c
  {
    hide Pow2, Bits.Peek, Bits.Drop, Bits.Append, BytesOf;
    HeaderThen(c.u, c.n);
    LEOfBytes(2 + 8 * c.u, |s|);
    FirstInput(s);
  }

  lemma FirstInput(s: seq<byte>)
    ensures Bits(0, 0).Append(s) == Bits(LE(s), 8 * |s|)
  {
    assert Pow2(0) == 1;
  }

  lemma HeaderThen(x: nat, n: nat)
    requires x < Pow2(n)
    ensures 2 + 8 * x < Pow2(3 + n)
    ensures var b := Bits(2 + 8 * x, 3 + n);
            b.Peek(1) == 0 && b.Drop(1).Peek(2) == 1 && b.Drop(3) == Bits(x, n)
  {
    assert Pow2(0) == 1 && Pow2(1) == 2 && Pow2(2) == 4 && Pow2(3) == 8;
    Pow2Add(3, n);
    hide Pow2;
  }

  // ---- what the machine makes of it ----

  lemma LiteralStep(cfg: Config, a: State, w: nat, len: nat, k: nat, p: nat, limit: nat)
    requires cfg.tables.Ok() && Wf(a) && a.mode.Len? && LongLiteral(a.lcode, w, len) && k > 0
    requires a.bits == Codes(w, len, k, p) && |a.out| < limit
    ensures LiteralOf(a.lcode, w, len).val < 256
    ensures Reaches(cfg, a, a.(bits := Codes(w, len, k - 1, p), out := a.out + [LiteralOf(a.lcode, w, len).val]), limit)
  {
    var e := LiteralOf(a.lcode, w, len);
    CodesNext(w, len, k, p);
    DecodeStable(a.lcode, Bits(w, len), a.bits);
    hide Wf, Tables.Ok, Decode, TableOk, Pow2, Reaches, Codes;
    LenReaches(cfg, a, e, len, limit);
    var b := a.(mode := Lit(e.val), bits := Codes(w, len, k - 1, p));
    ReachesWf(cfg, a, b, limit);
    LitReaches(cfg, b, limit);
    ReachesTrans(cfg, a, b, a.(bits := b.bits, out := a.out + [e.val]), limit);
  }

  /** Where k literals lead. */
  ghost predicate AfterLiterals(a: State, b: State, w: nat, len: nat, k: nat, p: nat) {
    b == a.(bits := Codes(w, len, 0, p), out := b.out) && |b.out| == |a.out| + k
  }

  lemma {:induction false} Literals(cfg: Config, a: State, w: nat, len: nat, k: nat, p: nat, limit: nat) returns (b: State)
    requires cfg.tables.Ok() && Wf(a) && a.mode.Len? && LongLiteral(a.lcode, w, len)
    requires a.bits == Codes(w, len, k, p) && |a.out| + k <= limit
    ensures Reaches(cfg, a, b, limit) && AfterLiterals(a, b, w, len, k, p)
    decreases k
  {
    hide Wf, Tables.Ok, Reaches, LongLiteral, Codes;
    if k == 0 {
      ReachesSame(cfg, a, limit);
      b := a;
    } else {
      LiteralStep(cfg, a, w, len, k, p, limit);
      var c := a.(bits := Codes(w, len, k - 1, p), out := a.out + [LiteralOf(a.lcode, w, len).val]);
      ReachesWf(cfg, a, c, limit);
      b := Literals(cfg, c, w, len, k - 1, p, limit);
      ReachesTrans(cfg, a, c, b, limit);
    }
  }

  /** Part of a code completes none. */
  lemma PartWaits(cfg: Config, a: State, w: nat, len: nat, p: nat, limit: nat)
    requires cfg.tables.Ok() && Wf(a) && a.mode.Len? && LongLiteral(a.lcode, w, len)
    requires p < len && a.bits == Codes(w, len, 0, p)
    ensures Decode(a.lcode, a.bits) == None && Run(cfg, a, limit) == a
  {
    var whole := Bits(w, len);
    assert a.bits == Front(whole, p);
    FrontStarts(whole, p, p);
    if Decode(a.lcode, a.bits).Some? {
      DecodeLeaf(a.lcode, a.bits);
      DecodeStable(a.lcode, a.bits, whole);
    }
    hide Wf, Tables.Ok, Decode, TableOk, Pow2, LengthTableOk;
    StepCases(cfg, a, limit);
    LengthTable(a);
  }

  lemma LengthTable(a: State)
    requires Wf(a) && a.mode.Len?
    ensures LengthTableOk(a.lcode)
  {
  }

  /** The input leaves the machine in Len with part of a code. */
  lemma EndsInCode(cfg: Config, a: State, w: nat, len: nat, limit: nat)
    requires cfg.tables.Ok() && LongLiteral(cfg.tables.fixedLen, w, len) && len <= 15
    requires Wf(a) && a.mode.Type? && !a.last && a.bits == Bits(0, 0) && |a.out| + Copies(len) <= limit
    ensures Wf(Feed(a, Input(w, len)))
    ensures var r := Run(cfg, Feed(a, Input(w, len)), limit);
            && r.mode.Len? && r.bits.n == Part(len) && |r.out| == |a.out| + Copies(len)
            && TableOk(r.lcode) && Decode(r.lcode, r.bits) == None
  {
    var k, p := Copies(len), Part(len);
    FeedWf(a, Input(w, len));
    FirstStep(cfg, a, w, len, limit);
    var b := Feed(a, Input(w, len));
    var c := b.(mode := Len, lcode := cfg.tables.fixedLen, dcode := cfg.tables.fixedDist, bits := Codes(w, len, k, p));
    assert TableOk(c.lcode) && Codes(w, len, 0, p).n == p;
    hide Wf, Tables.Ok, Run, LongLiteral, Reaches, Codes, TableOk, Decode, Input;
    ReachesWf(cfg, b, c, limit);
    var d := Literals(cfg, c, w, len, k, p, limit);
    ReachesTrans(cfg, b, c, d, limit);
    ReachesWf(cfg, b, d, limit);
    PartWaits(cfg, d, w, len, p, limit);
    SameEnd(cfg, b, d, limit);
  }

  lemma SameEnd(cfg: Config, a: State, b: State, limit: nat)
    requires Reaches(cfg, a, b, limit)
    ensures Wf(a) && Wf(b) && cfg.tables.Ok() && Run(cfg, a, limit) == Run(cfg, b, limit)
  {
    hide Wf, Tables.Ok, Run;
  }

  lemma FirstStep(cfg: Config, a: State, w: nat, len: nat, limit: nat)
    requires 9 <= len <= 15 && w < Pow2(len)
    requires cfg.tables.Ok() && Wf(a) && Wf(Feed(a, Input(w, len))) && a.mode.Type? && !a.last && a.bits == Bits(0, 0)
    ensures Reaches(cfg, Feed(a, Input(w, len)),
                    Feed(a, Input(w, len)).(mode := Len, lcode := cfg.tables.fixedLen, dcode := cfg.tables.fixedDist,
                                            bits := Codes(w, len, Copies(len), Part(len))), limit)
  {
    InputBits(w, len);
    hide Wf, Tables.Ok, Pow2, Bits.Peek, Bits.Drop, Bits.Append, Codes, Input;
    StepReaches(cfg, Feed(a, Input(w, len)),
                Feed(a, Input(w, len)).(mode := Len, lcode := cfg.tables.fixedLen, dcode := cfg.tables.fixedDist,
                                        bits := Codes(w, len, Copies(len), Part(len))), limit);
  }

  // ---- the decoder ----

  /** A call with that input ends in LEN with 8 or 9 bits held. */
  method Holds(t: Tables, w: nat, len: nat) returns (inf: InflateState)
    requires t.Ok() && LongLiteral(t.fixedLen, w, len) && len <= 15
    ensures fresh(inf) && fresh(inf.window) && fresh(inf.lens)
    ensures inf.Sound() && inf.tables == t && inf.mode == LEN && inf.bits == Part(len)
  {
    hide Tables.Ok, LongLiteral, Wf, Run, Feed, InflateState.Sound, InflateState.Abs, TableOk, Decode, Input;
    AtLeastNine(t.fixedLen, w, len);
    inf := new InflateState(t, 15);
    ghost var a := inf.Abs();
    Started(inf);
    var k := Copies(len);
    var output := new byte[k + 1];
    EndsInCode(inf.Cfg(), a, w, len, k + 1);
    var ret, written := inf.Inflate(Input(w, len), output);
    OnlyWritten(inf);
    inf.AllHeld();
  }

  lemma AtLeastNine(t: Table, w: nat, len: nat)
    requires LongLiteral(t, w, len)
    ensures 9 <= len
  {
  }

  lemma Started(inf: InflateState)
    requires inf.Sound() && inf.far.None? && inf.before == []
    ensures Wf(inf.Abs()) && inf.Cfg().tables.Ok() && inf.Abs().out == []
  {
    inf.SoundGives([]);
    hide InflateState.Sound, Wf, Tables.Ok;
  }

  lemma OnlyWritten(inf: InflateState)
    requires inf.Sound() && inf.Abs().mode.Len?
    ensures inf.before == inf.Abs().out && inf.mode == LEN && inf.far.None?
  {
    assert inf.far.None?;
    inf.SoundGives([]);
    hide InflateState.Core, InflateState.InReach, InflateState.WindowFits;
  }

  /** The next call enters inflate_fast with them, given 6 bytes of input and
      258 of room. */
  method EntersHolding(t: Tables, w: nat, len: nat, more: seq<byte>, output: array<byte>) returns (inf: InflateState)
    requires t.Ok() && LongLiteral(t.fixedLen, w, len) && len <= 15 && 6 <= |more| && 258 <= output.Length
    ensures fresh(inf) && inf.tables == t && inf.mode == LEN && inf.bits >= 8
    ensures inf.Core() && inf.Io() && inf.WindowHolds() && |inf.input| - inf.next >= 6 && inf.left >= 258
  {
    hide Tables.Ok, LongLiteral, Wf, InflateState.Sound, InflateState.Core, InflateState.WindowHolds;
    AtLeastNine(t.fixedLen, w, len);
    inf := Holds(t, w, len);
    inf.CanGoOn();
    inf.Begin(more, output);
  }

  /** The fixed table (inffixed.h) has such a code: nine one-bits are the literal 255. */
  lemma FixedCode(t: Table)
    requires TableOk(t) && t.root == 9 && Entry(t.codes, 0, 511) == Code(0, 9, 255)
    ensures LongLiteral(t, 511, 9)
  {
    assert Pow2(9) == 512;
    assert Decode(t, Bits(511, 9)) == Some((Code(0, 9, 255), 9));
  }
}
