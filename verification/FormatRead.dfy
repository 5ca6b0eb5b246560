/** What the machine of InflateSpec makes of bits written as BlockFormat says:
    headers, code lengths, tokens and stored bytes are read back, block by block. */
module FormatRead {
  import opened Lz77
  import opened Binary
  import opened BitSource
  import opened CodeTables
  import opened InflateSpec
  import opened BlockFormat

  // ---- bits as a number ----

  function AsBits(s: seq<bool>): Bits { Bits(Number(s), |s|) }

  lemma Known(s: seq<bool>)
    ensures AsBits(s).u < Pow2(AsBits(s).n)
  {
    NumberBound(s);
  }

  /** The bits at the front, and what follows them. */
  lemma FrontOf(s: seq<bool>, t: seq<bool>)
    ensures AsBits(s + t).n == |s| + |t| && AsBits(s + t).Peek(|s|) == Number(s) && AsBits(s + t).Drop(|s|) == AsBits(t)
  {
    NumberBound(s);
    NumberOfTwo(s, t);
    hide Number, Pow2;
    Parts(Number(s + t), Pow2(|s|), Number(t), Number(s));
  }

  lemma Parts(x: nat, p: nat, q: nat, r: nat)
    requires r < p && x == r + p * q
    ensures x / p == q && x % p == r
  {
    DivModUnique(x, p, q, r);
  }

  lemma FieldFront(v: nat, k: nat, t: seq<bool>)
    requires v < Pow2(k)
    ensures var b := AsBits(Field(v, k) + t);
            b.n == k + |t| && b.Peek(k) == v && b.Drop(k) == AsBits(t)
  {
    NumberOfField(v, k);
    FrontOf(Field(v, k), t);
  }

  lemma StartsWith(s: seq<bool>, t: seq<bool>)
    ensures Starts(AsBits(s), AsBits(s + t))
  {
    FrontOf(s, t);
    NumberBound(s);
    SmallMod(Number(s), |s|);
  }

  /** Bytes are read as their bits, the least significant first. */
  lemma {:induction false} BytesAsBits(bytes: seq<byte>)
    ensures AsBits(BitsOf(bytes)) == Bits(LE(bytes), 8 * |bytes|)
    decreases |bytes|
  {
    if bytes != [] {
      BytesAsBits(bytes[1..]);
      assert Pow2(8) == 256;
      NumberOfField(bytes[0], 8);
      NumberOfTwo(Field(bytes[0], 8), BitsOf(bytes[1..]));
    }
  }

  lemma NoBits(t: seq<bool>)
    ensures [] + t == t
  {
  }

  // ---- block headers ----

  function Flag(last: bool): nat { if last then 1 else 0 }

  /** The three bits at the start of a block. */
  lemma TypeRead(cfg: Config, a: State, last: bool, kind: nat, rest: seq<bool>, limit: nat)
    requires cfg.tables.Ok() && Wf(a) && a.mode.Type? && !a.last && kind < 4
    requires a.bits == AsBits(Field(Flag(last), 1) + (Field(kind, 2) + rest))
    ensures Reaches(cfg, a, BlockOfKind(cfg, a.(last := last, bits := AsBits(rest)), kind), limit)
  {
    assert Pow2(1) == 2 && Pow2(2) == 4;
    hide Pow2, Wf, Tables.Ok, Bits.Peek, Bits.Drop;
    FieldFront(Flag(last), 1, Field(kind, 2) + rest);
    FieldFront(kind, 2, rest);
    DropDrop(a.bits, 1, 2);
    StepCases(cfg, a, limit);
    hide Step;
    StepReaches(cfg, a, BlockOfKind(cfg, a.(last := last, bits := AsBits(rest)), kind), limit);
  }

  /** Padding up to a byte. */
  lemma PadRead(cfg: Config, a: State, pad: seq<bool>, rest: seq<bool>, limit: nat)
    requires cfg.tables.Ok() && Wf(a) && a.mode.StoredLen? && |pad| < 8 && |rest| % 8 == 0 && a.bits == AsBits(pad + rest)
    ensures Reaches(cfg, a, a.(bits := AsBits(rest)), limit)
  {
    hide Pow2, Wf, Tables.Ok, Bits.Peek, Bits.Drop, Run;
    FrontOf(pad, rest);
    if pad == [] {
      NoBits(rest);
      ReachesSame(cfg, a, limit);
    } else {
      StepCases(cfg, a, limit);
      StepReaches(cfg, a, a.(bits := AsBits(rest)), limit);
    }
  }

  /** Length and complement of a stored block. */
  lemma LengthRead(cfg: Config, a: State, len: nat, rest: seq<bool>, limit: nat)
    requires cfg.tables.Ok() && Wf(a) && a.mode.StoredLen? && |rest| % 8 == 0 && len <= 0xffff
    requires a.bits == AsBits(Field(len, 16) + (Field(0xffff - len, 16) + rest))
    ensures Reaches(cfg, a, a.(mode := Copy(len), bits := AsBits(rest)), limit)
  {
    hide Pow2, Wf, Tables.Ok, Bits.Peek, Bits.Drop, Reaches, Step, AsBits;
    LengthAndComplement(len, rest);
    StepCases(cfg, a, limit);
    StepReaches(cfg, a, a.(mode := Copy(len), bits := AsBits(rest)), limit);
  }

  lemma LengthAndComplement(len: nat, rest: seq<bool>)
    requires |rest| % 8 == 0 && len <= 0xffff
    ensures var b := AsBits(Field(len, 16) + (Field(0xffff - len, 16) + rest));
            b.n >= 32 && Odd(b.n) == 0 && b.Peek(16) == len && b.Drop(16).Peek(16) == 0xffff - len && b.Drop(32) == AsBits(rest)
  {
    Sixteen();
    hide Pow2, Bits.Peek, Bits.Drop;
    FieldFront(len, 16, Field(0xffff - len, 16) + rest);
    FieldFront(0xffff - len, 16, rest);
    DropDrop(AsBits(Field(len, 16) + (Field(0xffff - len, 16) + rest)), 16, 16);
  }

  lemma Sixteen()
    ensures Pow2(16) == 0x1_0000
  {
    assert Pow2(8) == 256;
    Pow2Add(8, 8);
  }

  lemma StoredRead(cfg: Config, a: State, pad: seq<bool>, len: nat, rest: seq<bool>, limit: nat)
    requires cfg.tables.Ok() && Wf(a) && a.mode.StoredLen? && |pad| < 8 && |rest| % 8 == 0 && len <= 0xffff
    requires a.bits == AsBits(pad + (Field(len, 16) + (Field(0xffff - len, 16) + rest)))
    ensures Reaches(cfg, a, a.(mode := Copy(len), bits := AsBits(rest)), limit)
  {
    hide Wf, Tables.Ok, Reaches, AsBits;
    var s := Field(len, 16) + (Field(0xffff - len, 16) + rest);
    PadRead(cfg, a, pad, s, limit);
    var b := a.(bits := AsBits(s));
    ReachesWf(cfg, a, b, limit);
    LengthRead(cfg, b, len, rest, limit);
    ReachesTrans(cfg, a, b, a.(mode := Copy(len), bits := AsBits(rest)), limit);
  }

  /** The bytes of a stored block. */
  lemma {:induction false} RawRead(cfg: Config, a: State, raw: seq<byte>, rest: seq<bool>, limit: nat)
    requires cfg.tables.Ok() && Wf(a) && a.mode == Copy(|raw|) && a.bits == AsBits(BitsOf(raw) + rest)
    requires |a.out| + |raw| <= limit
    ensures Reaches(cfg, a, a.(mode := Type, bits := AsBits(rest), out := a.out + raw), limit)
    decreases |raw|
  {
    var c := a.(mode := Type, bits := AsBits(rest), out := a.out + raw);
    StepCases(cfg, a, limit);
    if raw == [] {
      NoBits(rest);
      assert a.out + raw == a.out;
      hide Step, Wf, Tables.Ok;
      StepReaches(cfg, a, c, limit);
    } else {
      hide Wf, Tables.Ok, Bits.Peek, Bits.Drop;
      var b := a.(mode := Copy(|raw| - 1), bits := AsBits(BitsOf(raw[1..]) + rest), out := a.out + [raw[0]]);
      OneByte(raw, rest);
      hide BitsOf;
      StepReaches(cfg, a, b, limit);
      hide Step;
      ReachesWf(cfg, a, b, limit);
      assert a.out + raw == b.out + raw[1..];
      hide Reaches;
      RawRead(cfg, b, raw[1..], rest, limit);
      ReachesTrans(cfg, a, b, c, limit);
    }
  }

  lemma OneByte(raw: seq<byte>, rest: seq<bool>)
    requires raw != []
    ensures var b := AsBits(BitsOf(raw) + rest);
            b.n >= 8 && b.Peek(8) == raw[0] && b.Drop(8) == AsBits(BitsOf(raw[1..]) + rest)
  {
    assert Pow2(8) == 256;
    assert BitsOf(raw) + rest == Field(raw[0], 8) + (BitsOf(raw[1..]) + rest);
    FieldFront(raw[0], 8, BitsOf(raw[1..]) + rest);
  }

  // ---- the code-length lengths ----

  /** HLIT, HDIST and HCLEN. */
  lemma SizesRead(cfg: Config, a: State, nlen: nat, ndist: nat, ncode: nat, rest: seq<bool>, limit: nat)
    requires cfg.tables.Ok() && Wf(a) && a.mode.TableSizes?
    requires 257 <= nlen <= 286 && 1 <= ndist <= 30 && 4 <= ncode <= 19
    requires a.bits == AsBits(Field(nlen - 257, 5) + (Field(ndist - 1, 5) + (Field(ncode - 4, 4) + rest)))
    ensures Reaches(cfg, a, a.(mode := LenLens(nlen, ndist, ncode, 0), bits := AsBits(rest)), limit)
  {
    hide Pow2, Wf, Tables.Ok, Bits.Peek, Bits.Drop, Reaches, Step;
    SizesFront(nlen - 257, ndist - 1, ncode - 4, rest);
    hide AsBits;
    StepCases(cfg, a, limit);
    StepReaches(cfg, a, a.(mode := LenLens(nlen, ndist, ncode, 0), bits := AsBits(rest)), limit);
  }

  /** The first i of the transmitted lengths are in place. */
  ghost predicate Placed(lens: seq<nat>, sent: seq<nat>, i: nat)
    requires |sent| == 19
  {
    |lens| == LENS && i <= 19 && forall j :: 0 <= j < i ==> lens[OrderOf(j)] == sent[j]
  }

  function OrderOf(j: nat): (k: nat)
    requires j < 19
    ensures k < 19
  {
    OrderFits(j);
    ORDER[j]
  }

  lemma OrderFits(j: nat)
    requires j < 19
    ensures ORDER[j] < 19
  {
  }

  lemma OrderDistinct(i: nat, j: nat)
    requires i < j < 19
    ensures OrderOf(i) != OrderOf(j)
  {
  }

  lemma PlacedNext(lens: seq<nat>, sent: seq<nat>, i: nat)
    requires |sent| == 19 && i < 19 && Placed(lens, sent, i)
    ensures Placed(lens[OrderOf(i) := sent[i]], sent, i + 1)
  {
    forall j | 0 <= j < i ensures OrderOf(i) != OrderOf(j) {
      OrderDistinct(j, i);
    }
    hide OrderOf;
  }

  /** The 3-bit lengths, from the i-th on. */
  lemma {:induction false} LenLensRead(cfg: Config, a: State, nlen: nat, ndist: nat, ncode: nat, sent: seq<nat>, i: nat,
                                       rest: seq<bool>, limit: nat) returns (c: State)
    requires cfg.tables.Ok() && Wf(a) && a.mode == LenLens(nlen, ndist, ncode, i) && i <= ncode <= 19
    requires |sent| == 19 && (forall v :: v in sent ==> v < 8) && Placed(a.lens, sent, i)
    requires a.bits == AsBits(Fields(sent[i..ncode], 3) + rest)
    ensures Reaches(cfg, a, c, limit) && c == a.(mode := LenLens(nlen, ndist, ncode, ncode), bits := AsBits(rest), lens := c.lens)
    ensures Placed(c.lens, sent, ncode)
    decreases ncode - i
  {
    if i == ncode {
      NoBits(rest);
      ReachesSame(cfg, a, limit);
      c := a;
    } else {
      assert Pow2(3) == 8;
      hide Wf, Tables.Ok, Bits.Peek, Bits.Drop, Placed;
      PlacedNext(a.lens, sent, i);
      assert sent[i..ncode][1..] == sent[i + 1..ncode] && sent[i] in sent;
      var more := Fields(sent[i + 1..ncode], 3) + rest;
      assert Fields(sent[i..ncode], 3) + rest == Field(sent[i], 3) + more;
      FieldFront(sent[i], 3, more);
      hide Fields, Field;
      var b := a.(mode := LenLens(nlen, ndist, ncode, i + 1), bits := AsBits(more), lens := a.lens[OrderOf(i) := sent[i]]);
      StepCases(cfg, a, limit);
      hide Step, Pow2;
      StepReaches(cfg, a, b, limit);
      ReachesWf(cfg, a, b, limit);
      hide Reaches;
      c := LenLensRead(cfg, b, nlen, ndist, ncode, sent, i + 1, rest, limit);
      ReachesTrans(cfg, a, b, c, limit);
    }
  }

  /** The lengths that are not sent are zero. */
  lemma {:induction false} ClearPlaced(lens: seq<nat>, sent: seq<nat>, i: nat)
    requires |sent| == 19 && Placed(lens, sent, i) && forall j :: i <= j < 19 ==> sent[j] == 0
    ensures Placed(ClearRest(lens, i), sent, 19)
    decreases 19 - i
  {
    if i < 19 {
      PlacedNext(lens, sent, i);
      ClearPlaced(lens[OrderOf(i) := sent[i]], sent, i + 1);
    }
  }

  /** All in place: every symbol has the length that was meant for it. */
  lemma AllPlaced(lens: seq<nat>, cl: seq<nat>)
    requires |cl| == 19 && Placed(lens, Transmitted(cl), 19)
    ensures lens[..19] == cl
  {
    var sent := Transmitted(cl);
    assert lens[OrderOf(0)] == sent[0] && lens[OrderOf(1)] == sent[1] && lens[OrderOf(2)] == sent[2];
    assert lens[OrderOf(3)] == sent[3] && lens[OrderOf(4)] == sent[4] && lens[OrderOf(5)] == sent[5];
    assert lens[OrderOf(6)] == sent[6] && lens[OrderOf(7)] == sent[7] && lens[OrderOf(8)] == sent[8];
    assert lens[OrderOf(9)] == sent[9] && lens[OrderOf(10)] == sent[10] && lens[OrderOf(11)] == sent[11];
    assert lens[OrderOf(12)] == sent[12] && lens[OrderOf(13)] == sent[13] && lens[OrderOf(14)] == sent[14];
    assert lens[OrderOf(15)] == sent[15] && lens[OrderOf(16)] == sent[16] && lens[OrderOf(17)] == sent[17];
    assert lens[OrderOf(18)] == sent[18];
    OrderIs();
    hide OrderOf;
    forall k | 0 <= k < 19 ensures lens[..19][k] == cl[k] {
      assert lens[..19][k] == lens[k];
    }
  }

  lemma OrderIs()
    ensures OrderOf(0) == 16 && OrderOf(1) == 17 && OrderOf(2) == 18 && OrderOf(3) == 0 && OrderOf(4) == 8
    ensures OrderOf(5) == 7 && OrderOf(6) == 9 && OrderOf(7) == 6 && OrderOf(8) == 10 && OrderOf(9) == 5
    ensures OrderOf(10) == 11 && OrderOf(11) == 4 && OrderOf(12) == 12 && OrderOf(13) == 3 && OrderOf(14) == 13
    ensures OrderOf(15) == 2 && OrderOf(16) == 14 && OrderOf(17) == 1 && OrderOf(18) == 15
  {
  }

  // ---- the code lengths ----

  /** The table decodes the word of this symbol to it. */
  ghost predicate Spells(t: Table, w: seq<bool>, symbol: nat) {
    && LensTableOk(t)
    && var e := Entry(t.codes, 0, AsBits(w).Peek(t.root));
       e.val == symbol && e.bits == |w|
  }

  lemma SpelledFront(t: Table, w: seq<bool>, symbol: nat, rest: seq<bool>)
    requires Spells(t, w, symbol)
    ensures LensTableOk(t) && 1 <= |w|
    ensures var b := AsBits(w + rest); var e := Entry(t.codes, 0, b.Peek(t.root));
            e.val == symbol && e.bits == |w| && b.n == |w| + |rest| && b.Drop(|w|) == AsBits(rest)
  {
    FrontOf(w, rest);
    NumberBound(w);
    SmallMod(Number(w), |w|);
    SameEntry(t.codes, 0, t.root, AsBits(w), AsBits(w + rest));
  }

  /** The lengths known so far. */
  ghost predicate Holds(a: State, nlen: nat, ndist: nat, lens: seq<nat>) {
    a.mode == CodeLens(nlen, ndist, |lens|) && |lens| <= nlen + ndist <= |a.lens| && a.lens[..|lens|] == lens
  }

  lemma Filled(lens: seq<nat>, have: nat, copy: nat, len: nat)
    requires have + copy <= |lens|
    ensures Fill(lens, have, copy, len)[..have + copy] == lens[..have] + Times(copy, len)
  {
  }

  /** What an item makes of the state. */
  ghost function AfterItem(a: State, nlen: nat, ndist: nat, lens: seq<nat>, item: Item, rest: seq<bool>): State
    requires AddItem(lens, item).Some? && |AddItem(lens, item).value| <= |a.lens|
  {
    a.(mode := CodeLens(nlen, ndist, |AddItem(lens, item).value|), bits := AsBits(rest),
       lens := if item.Length? then a.lens[|lens| := item.n]
               else Fill(a.lens, |lens|, item.times, if item.CopyLast? then lens[|lens| - 1] else 0))
  }

  lemma HoldsNext(a: State, nlen: nat, ndist: nat, lens: seq<nat>, item: Item, rest: seq<bool>)
    requires Holds(a, nlen, ndist, lens) && AddItem(lens, item).Some? && |AddItem(lens, item).value| <= nlen + ndist
    ensures Holds(AfterItem(a, nlen, ndist, lens, item, rest), nlen, ndist, AddItem(lens, item).value)
  {
    if !item.Length? {
      Filled(a.lens, |lens|, item.times, if item.CopyLast? then lens[|lens| - 1] else 0);
      hide Fill;
    }
  }

  lemma ItemRead(cfg: Config, a: State, w: Words, nlen: nat, ndist: nat, lens: seq<nat>, item: Item, rest: seq<bool>, limit: nat)
    requires cfg.tables.Ok() && Wf(a) && Holds(a, nlen, ndist, lens)
    requires item.Ok() && Spells(a.lcode, w(item.Symbol()), item.Symbol())
    requires AddItem(lens, item).Some? && |AddItem(lens, item).value| <= nlen + ndist
    requires a.bits == AsBits(w(item.Symbol()) + item.Extra() + rest)
    ensures Reaches(cfg, a, AfterItem(a, nlen, ndist, lens, item, rest), limit)
  {
    assert |a.lens| == LENS && 257 <= nlen <= 286 && ndist <= 30 && |lens| <= nlen + ndist;
    StepCases(cfg, a, limit);
    hide Wf, Tables.Ok, Bits.Peek, Bits.Drop, Spells, LensTableOk, AfterItem, Step, Reaches, StepCodeLens;
    assert a.mode == CodeLens(nlen, ndist, |lens|);
    ItemFront(a.lcode, w(item.Symbol()), item, rest);
    ItemStep(cfg, a, nlen, ndist, lens, item, rest);
    hide Holds, AddItem;
    StepReaches(cfg, a, AfterItem(a, nlen, ndist, lens, item, rest), limit);
  }

  lemma ItemFront(t: Table, w: seq<bool>, item: Item, rest: seq<bool>)
    requires item.Ok() && Spells(t, w, item.Symbol())
    ensures LensTableOk(t) && ItemAhead(t, AsBits(w + item.Extra() + rest), item, rest)
  {
    hide Bits.Peek, Bits.Drop, Spells, LensTableOk;
    assert w + item.Extra() + rest == w + (item.Extra() + rest);
    SpelledFront(t, w, item.Symbol(), item.Extra() + rest);
    ExtraFront(item, rest);
    DropDrop(AsBits(w + (item.Extra() + rest)), |w|, |item.Extra()|);
  }

  /** An item is at the front of the bits. */
  ghost predicate ItemAhead(t: Table, b: Bits, item: Item, rest: seq<bool>)
    requires LensTableOk(t)
  {
    var e := Entry(t.codes, 0, b.Peek(t.root));
    && e.val == item.Symbol() && e.bits + RepeatBits(e.val) <= b.n
    && b.Drop(e.bits + RepeatBits(e.val)) == AsBits(rest)
    && (!item.Length? ==> (if item.Symbol() < 18 then 3 else 11) + b.Drop(e.bits).Peek(RepeatBits(e.val)) == item.times)
  }

  /** What follows the word of an item: its extra bits. */
  lemma ExtraFront(item: Item, rest: seq<bool>)
    requires item.Ok()
    ensures var b := AsBits(item.Extra() + rest); var more := RepeatBits(item.Symbol());
            && |item.Extra()| == more && b.n == more + |rest| && b.Drop(more) == AsBits(rest)
            && (!item.Length? ==> (if item.Symbol() < 18 then 3 else 11) + b.Peek(more) == item.times)
  {
    assert Pow2(2) == 4 && Pow2(3) == 8 && Pow2(7) == 128;
    hide Pow2, Bits.Peek, Bits.Drop, Field;
    match item
    case Length(_) => FrontOf([], rest);
    case CopyLast(times) => FieldFront(times - 3, 2, rest);
    case FewZeros(times) => FieldFront(times - 3, 3, rest);
    case ManyZeros(times) => FieldFront(times - 11, 7, rest);
  }

  lemma ItemStep(cfg: Config, a: State, nlen: nat, ndist: nat, lens: seq<nat>, item: Item, rest: seq<bool>)
    requires |a.lens| == LENS && LensTableOk(a.lcode) && 257 <= nlen <= 286 && ndist <= 30 && Holds(a, nlen, ndist, lens)
    requires item.Ok() && AddItem(lens, item).Some? && |AddItem(lens, item).value| <= nlen + ndist
    requires ItemAhead(a.lcode, a.bits, item, rest)
    ensures StepCodeLens(cfg, a, nlen, ndist, |lens|) == Some(AfterItem(a, nlen, ndist, lens, item, rest))
  {
    hide LensTableOk, Bits.Peek, Bits.Drop, Fill, AsBits;
    if item.CopyLast? { assert a.lens[|lens| - 1] == a.lens[..|lens|][|lens| - 1]; }
  }

  lemma {:induction false} ItemsGrow(lens: seq<nat>, items: seq<Item>)
    requires AddItems(lens, items).Some?
    ensures |lens| <= |AddItems(lens, items).value|
    decreases |items|
  {
    if items != [] { ItemsGrow(AddItem(lens, items[0]).value, items[1..]); }
  }

  /** Any list of items reads back as the code lengths that it stands for. */
  lemma {:induction false} ItemsRead(cfg: Config, a: State, w: Words, nlen: nat, ndist: nat, lens: seq<nat>, items: seq<Item>,
                                     rest: seq<bool>, limit: nat) returns (b: State)
    requires cfg.tables.Ok() && Wf(a) && Holds(a, nlen, ndist, lens)
    requires forall x :: x in items ==> x.Ok() && Spells(a.lcode, w(x.Symbol()), x.Symbol())
    requires AddItems(lens, items).Some? && |AddItems(lens, items).value| <= nlen + ndist
    requires a.bits == AsBits(ItemsBits(w, items) + rest)
    ensures Reaches(cfg, a, b, limit) && Holds(b, nlen, ndist, AddItems(lens, items).value)
    ensures b == a.(mode := b.mode, lens := b.lens, bits := AsBits(rest))
    decreases |items|
  {
    assert nlen + ndist <= |a.lens|;
    hide Wf, Tables.Ok, Spells, Reaches, AsBits, Holds, ItemsBits, AddItems, AddItem;
    if items == [] {
      NoItems(w, lens, rest);
      ReachesSame(cfg, a, limit);
      b := a;
    } else {
      var x, more := items[0], ItemsBits(w, items[1..]) + rest;
      FirstItem(w, lens, items, rest);
      ItemRead(cfg, a, w, nlen, ndist, lens, x, more, limit);
      HoldsNext(a, nlen, ndist, lens, x, more);
      var c := AfterItem(a, nlen, ndist, lens, x, more);
      ReachesWf(cfg, a, c, limit);
      b := ItemsRead(cfg, c, w, nlen, ndist, AddItem(lens, x).value, items[1..], rest, limit);
      ReachesTrans(cfg, a, c, b, limit);
    }
  }

  lemma NoItems(w: Words, lens: seq<nat>, rest: seq<bool>)
    ensures ItemsBits(w, []) + rest == rest && AddItems(lens, []) == Some(lens)
  {
  }

  lemma FirstItem(w: Words, lens: seq<nat>, items: seq<Item>, rest: seq<bool>)
    requires items != [] && (forall x :: x in items ==> x.Ok()) && AddItems(lens, items).Some?
    ensures ItemsBits(w, items) + rest == w(items[0].Symbol()) + items[0].Extra() + (ItemsBits(w, items[1..]) + rest)
    ensures AddItem(lens, items[0]).Some? && AddItems(AddItem(lens, items[0]).value, items[1..]) == AddItems(lens, items)
    ensures |AddItem(lens, items[0]).value| <= |AddItems(lens, items).value|
  {
    hide AddItem, Item.Symbol, Item.Extra;
    ItemsGrow(AddItem(lens, items[0]).value, items[1..]);
  }

  /** All lengths are known: what becomes of them. */
  lemma CodesKnown(cfg: Config, a: State, nlen: nat, ndist: nat, lens: seq<nat>, limit: nat)
    requires cfg.tables.Ok() && Wf(a) && Holds(a, nlen, ndist, lens) && |lens| == nlen + ndist
    ensures nlen >= 257
    ensures var l, d := cfg.tables.lens(lens[..nlen]), cfg.tables.dists(lens[nlen..]);
            Reaches(cfg, a, if lens[256] == 0 || l.None? then a.(mode := Bad)
                            else if d.None? then a.(mode := Bad, lcode := l.value)
                            else a.(mode := Len, lcode := l.value, dcode := d.value), limit)
  {
    assert 257 <= nlen <= 286;
    hide Wf, Tables.Ok, LensTableOk;
    assert a.lens[..nlen] == lens[..nlen] && a.lens[nlen..nlen + ndist] == lens[nlen..] && a.lens[256] == lens[256];
    StepCases(cfg, a, limit);
    var b := StepCodeLens(cfg, a, nlen, ndist, nlen + ndist).value;
    hide Step;
    StepReaches(cfg, a, b, limit);
  }

  // ---- a dynamic block's codes ----

  /** The tables for the code lengths, for lengths and for distances that these
      codes come to; None if inflate_table refuses one of them. */
  ghost function TablesOf(cfg: Config, codes: Codes): Option<(Table, Table)> {
    match codes
    case FixedCodes => Some((cfg.tables.fixedLen, cfg.tables.fixedDist))
    case DynamicCodes(nlen, ndist, _, cl, _, items) =>
      match AddItems([], items)
      case None => None
      case Some(lens) =>
        if |lens| != nlen + ndist || nlen < 257 || cfg.tables.codes(cl).None? || lens[256] == 0 then None
        else
          var l, d := cfg.tables.lens(lens[..nlen]), cfg.tables.dists(lens[nlen..]);
          if l.None? || d.None? then None else Some((l.value, d.value))
  }

  /** The table for the code lengths decodes the words of all items. */
  ghost predicate ItemsSpelled(cfg: Config, codes: Codes) {
    codes.DynamicCodes? ==>
      && cfg.tables.codes(codes.cl).Some?
      && forall x :: x in codes.items ==> Spells(cfg.tables.codes(codes.cl).value, codes.clWord(x.Symbol()), x.Symbol())
  }

  /** The lengths of the code-length code, all 19 of them. */
  lemma LenLensDone(cfg: Config, a: State, nlen: nat, ndist: nat, ncode: nat, cl: seq<nat>, limit: nat)
    requires cfg.tables.Ok() && Wf(a) && a.mode == LenLens(nlen, ndist, ncode, ncode) && |cl| == 19 && ncode <= 19
    requires Placed(a.lens, Transmitted(cl), ncode) && forall j :: ncode <= j < 19 ==> Transmitted(cl)[j] == 0
    ensures |ClearRest(a.lens, ncode)| == LENS && ClearRest(a.lens, ncode)[..19] == cl
    ensures var b := a.(lens := ClearRest(a.lens, ncode));
            var t := cfg.tables.codes(cl);
            Reaches(cfg, a, if t.None? then b.(mode := Bad) else b.(mode := CodeLens(nlen, ndist, 0), lcode := t.value), limit)
  {
    ClearPlaced(a.lens, Transmitted(cl), ncode);
    AllPlaced(ClearRest(a.lens, ncode), cl);
    StepCases(cfg, a, limit);
    hide Wf, Tables.Ok, Step, ClearRest, Placed;
    StepReaches(cfg, a, StepLenLens(cfg, a, nlen, ndist, ncode, ncode).value, limit);
  }

  /** From the sizes to the code lengths: nlen, ndist and all 19 lengths are those written. */
  lemma HeaderRead(cfg: Config, a: State, codes: Codes, rest: seq<bool>, limit: nat) returns (c: State)
    requires cfg.tables.Ok() && Wf(a) && a.mode.TableSizes? && codes.DynamicCodes? && codes.Ok()
    requires cfg.tables.codes(codes.cl).Some?
    requires a.bits == AsBits(Field(codes.nlen - 257, 5) + (Field(codes.ndist - 1, 5) + (Field(codes.ncode - 4, 4)
                              + (Fields(Transmitted(codes.cl)[..codes.ncode], 3) + rest))))
    ensures Reaches(cfg, a, c, limit) && |c.lens| == LENS && c.lens[..19] == codes.cl
    ensures c == a.(mode := CodeLens(codes.nlen, codes.ndist, 0), lens := c.lens, lcode := cfg.tables.codes(codes.cl).value,
                    bits := AsBits(rest))
  {
    hide Wf, Tables.Ok, AsBits, Reaches, Fields, Field;
    var sent := Transmitted(codes.cl);
    var more := Fields(sent[..codes.ncode], 3) + rest;
    SizesRead(cfg, a, codes.nlen, codes.ndist, codes.ncode, more, limit);
    var b := a.(mode := LenLens(codes.nlen, codes.ndist, codes.ncode, 0), bits := AsBits(more));
    ReachesWf(cfg, a, b, limit);
    LensSize(b);
    assert sent[0..codes.ncode] == sent[..codes.ncode];
    SmallSent(codes.cl);
    var d := LenLensRead(cfg, b, codes.nlen, codes.ndist, codes.ncode, sent, 0, rest, limit);
    ReachesTrans(cfg, a, b, d, limit);
    ReachesWf(cfg, a, d, limit);
    LenLensDone(cfg, d, codes.nlen, codes.ndist, codes.ncode, codes.cl, limit);
    c := d.(lens := ClearRest(d.lens, codes.ncode), mode := CodeLens(codes.nlen, codes.ndist, 0),
            lcode := cfg.tables.codes(codes.cl).value);
    ReachesTrans(cfg, a, d, c, limit);
  }

  lemma LensSize(a: State)
    requires Wf(a)
    ensures |a.lens| == LENS
  {
  }

  lemma SmallSent(cl: seq<nat>)
    requires |cl| == 19 && forall v :: v in cl ==> v < 8
    ensures forall v :: v in Transmitted(cl) ==> v < 8
  {
    assert forall k :: 0 <= k < 19 ==> cl[k] in cl;
  }

  /** The header of a coded block brings the machine to its tables. */
  lemma CodesRead(cfg: Config, a: State, codes: Codes, rest: seq<bool>, limit: nat) returns (c: State)
    requires cfg.tables.Ok() && Wf(a) && a.mode.TableSizes? && codes.DynamicCodes? && codes.Ok()
    requires TablesOf(cfg, codes).Some? && ItemsSpelled(cfg, codes) && a.bits == AsBits(codes.Bits() + rest)
    ensures Reaches(cfg, a, c, limit)
    ensures c == a.(mode := Len, lens := c.lens, lcode := TablesOf(cfg, codes).value.0, dcode := TablesOf(cfg, codes).value.1,
                    bits := AsBits(rest))
  {
    hide Wf, Tables.Ok, AsBits, Reaches, Fields, Field, ItemsBits, Spells;
    var items := ItemsBits(codes.clWord, codes.items);
    CodesBits(codes, rest);
    var b := HeaderRead(cfg, a, codes, items + rest, limit);
    ReachesWf(cfg, a, b, limit);
    assert b.lens[..0] == [];
    var lens := AddItems([], codes.items).value;
    c := ItemsRead(cfg, b, codes.clWord, codes.nlen, codes.ndist, [], codes.items, rest, limit);
    ReachesTrans(cfg, a, b, c, limit);
    ReachesWf(cfg, a, c, limit);
    CodesKnown(cfg, c, codes.nlen, codes.ndist, lens, limit);
    var d := c.(mode := Len, lcode := TablesOf(cfg, codes).value.0, dcode := TablesOf(cfg, codes).value.1);
    ReachesTrans(cfg, a, c, d, limit);
    c := d;
  }

  lemma CodesBits(codes: Codes, rest: seq<bool>)
    requires codes.DynamicCodes? && codes.Ok()
    ensures codes.Bits() + rest
         == Field(codes.nlen - 257, 5) + (Field(codes.ndist - 1, 5) + (Field(codes.ncode - 4, 4)
            + (Fields(Transmitted(codes.cl)[..codes.ncode], 3) + (ItemsBits(codes.clWord, codes.items) + rest))))
  {
    hide Field, Fields, ItemsBits, Transmitted;
  }

  // ---- tokens ----

  /** The table decodes the word to such an entry. */
  ghost predicate Leads(t: Table, w: seq<bool>, op: nat, val: nat) {
    TableOk(t) && Decode(t, AsBits(w)).Some? && Decode(t, AsBits(w)).value.1 == |w|
    && Decode(t, AsBits(w)).value.0.op == op && (op != 96 ==> Decode(t, AsBits(w)).value.0.val == val)
  }

  /** The words of a token lead to what it needs: for a range its least value and number of extra bits. */
  ghost predicate TokenSpelled(l: Table, d: Table, c: Coding, t: Token) {
    match t
    case Literal(b) => Leads(l, c.lenWord(b), 0, b)
    case Match(dist, len) =>
      var lr, dr := c.lenRange(len), c.distRange(dist);
      Leads(l, c.lenWord(lr.symbol), 16 + lr.extra, lr.least) && Leads(d, c.distWord(dr.symbol), 16 + dr.extra, dr.least)
  }

  lemma WordFront(t: Table, w: seq<bool>, op: nat, val: nat, rest: seq<bool>)
    requires Leads(t, w, op, val)
    ensures var b := AsBits(w + rest);
            TableOk(t) && Decode(t, b) == Decode(t, AsBits(w)) && |w| <= b.n && b.Drop(|w|) == AsBits(rest)
  {
    hide TableOk, Decode, Bits.Drop;
    StartsWith(w, rest);
    DecodeStable(t, AsBits(w), AsBits(w + rest));
    FrontOf(w, rest);
  }

  lemma SmallExtra(r: Range, v: nat)
    requires InRange(r, v, LENGTHS) || InRange(r, v, DISTANCES)
    ensures r.extra <= 13 && (16 + r.extra) % 16 == r.extra && r.least <= v < r.least + Pow2(r.extra)
    ensures InRange(r, v, LENGTHS) ==> r.extra <= 5
  {
    hide Pow2;
  }

  /** A word for a length, with its extra bits. */
  lemma LengthTaken(cfg: Config, a: State, w: seq<bool>, r: Range, len: nat, rest: seq<bool>, limit: nat)
    requires cfg.tables.Ok() && Wf(a) && a.mode.Len? && InRange(r, len, LENGTHS) && Leads(a.lcode, w, 16 + r.extra, r.least)
    requires a.bits == AsBits(w + (Field(len - r.least, r.extra) + rest))
    ensures Reaches(cfg, a, a.(mode := Dist(len), bits := AsBits(rest)), limit)
  {
    hide Wf, Tables.Ok, TableOk, Decode, Bits.Peek, Bits.Drop, Pow2, Reaches, AsBits, InRange, Field;
    SmallExtra(r, len);
    var more := Field(len - r.least, r.extra) + rest;
    WordFront(a.lcode, w, 16 + r.extra, r.least, more);
    var e := Decode(a.lcode, a.bits).value.0;
    LenReaches(cfg, a, e, |w|, limit);
    var b := a.(mode := LenExt(r.least, r.extra), bits := AsBits(more));
    ReachesWf(cfg, a, b, limit);
    FieldFront(len - r.least, r.extra, rest);
    LenExtReaches(cfg, b, limit);
    ReachesTrans(cfg, a, b, a.(mode := Dist(len), bits := AsBits(rest)), limit);
  }

  lemma DistanceTaken(cfg: Config, a: State, w: seq<bool>, r: Range, dist: nat, rest: seq<bool>, limit: nat)
    requires cfg.tables.Ok() && Wf(a) && a.mode.Dist? && InRange(r, dist, DISTANCES) && dist <= cfg.wSize
    requires Leads(a.dcode, w, 16 + r.extra, r.least)
    requires a.bits == AsBits(w + (Field(dist - r.least, r.extra) + rest))
    ensures Reaches(cfg, a, a.(mode := MatchCopy(a.mode.length, dist), bits := AsBits(rest)), limit)
  {
    hide Wf, Tables.Ok, TableOk, Decode, Bits.Peek, Bits.Drop, Pow2, Reaches, AsBits, InRange, Field;
    SmallExtra(r, dist);
    var more := Field(dist - r.least, r.extra) + rest;
    WordFront(a.dcode, w, 16 + r.extra, r.least, more);
    var e := Decode(a.dcode, a.bits).value.0;
    DistReaches(cfg, a, e, |w|, limit);
    var b := a.(mode := DistExt(a.mode.length, r.least, r.extra), bits := AsBits(more));
    ReachesWf(cfg, a, b, limit);
    FieldFront(dist - r.least, r.extra, rest);
    DistExtReaches(cfg, b, limit);
    ReachesTrans(cfg, a, b, a.(mode := MatchCopy(a.mode.length, dist), bits := AsBits(rest)), limit);
  }

  /** One token, from its words to the bytes it stands for. */
  lemma TokenRead(cfg: Config, a: State, c: Coding, t: Token, rest: seq<bool>, limit: nat)
    requires cfg.tables.Ok() && Wf(a) && a.mode.Len? && TokenOk(c, t) && TokenSpelled(a.lcode, a.dcode, c, t)
    requires a.bits == AsBits(TokenBits(c, t) + rest) && TokenInRange(t, cfg.wSize)
    requires Apply(a.out, t).Some? && |Apply(a.out, t).value| <= limit
    ensures Reaches(cfg, a, a.(bits := AsBits(rest), out := Apply(a.out, t).value), limit)
  {
    hide Wf, Tables.Ok, TableOk, Decode, Reaches, AsBits, Bits.Drop, CopyBack, InRange, Field, Leads;
    var g := a.(bits := AsBits(rest), out := Apply(a.out, t).value);
    match t
    case Literal(b) => LiteralRead(cfg, a, c.lenWord(b), b, rest, limit);
    case Match(dist, len) =>
      var lr, dr := c.lenRange(len), c.distRange(dist);
      SmallExtra(lr, len);
      SmallExtra(dr, dist);
      var far := c.distWord(dr.symbol) + (Field(dist - dr.least, dr.extra) + rest);
      MatchBits(c, t, rest);
      LengthTaken(cfg, a, c.lenWord(lr.symbol), lr, len, far, limit);
      var b := a.(mode := Dist(len), bits := AsBits(far));
      ReachesWf(cfg, a, b, limit);
      DistanceTaken(cfg, b, c.distWord(dr.symbol), dr, dist, rest, limit);
      var d := a.(mode := MatchCopy(len, dist), bits := AsBits(rest));
      ReachesTrans(cfg, a, b, d, limit);
      ReachesWf(cfg, a, d, limit);
      MatchReaches(cfg, d, limit);
      ReachesTrans(cfg, a, d, g, limit);
  }

  lemma LiteralRead(cfg: Config, a: State, w: seq<bool>, c: byte, rest: seq<bool>, limit: nat)
    requires cfg.tables.Ok() && Wf(a) && a.mode.Len? && Leads(a.lcode, w, 0, c) && a.bits == AsBits(w + rest) && |a.out| < limit
    ensures Reaches(cfg, a, a.(bits := AsBits(rest), out := a.out + [c]), limit)
  {
    hide Wf, Tables.Ok, TableOk, Decode, Reaches, AsBits, Bits.Drop;
    WordFront(a.lcode, w, 0, c, rest);
    LenReaches(cfg, a, Decode(a.lcode, a.bits).value.0, |w|, limit);
    var b := a.(mode := Lit(c), bits := AsBits(rest));
    ReachesWf(cfg, a, b, limit);
    LitReaches(cfg, b, limit);
    ReachesTrans(cfg, a, b, a.(bits := AsBits(rest), out := a.out + [c]), limit);
  }

  lemma EndRead(cfg: Config, a: State, w: seq<bool>, rest: seq<bool>, limit: nat)
    requires cfg.tables.Ok() && Wf(a) && a.mode.Len? && Leads(a.lcode, w, 96, 0) && a.bits == AsBits(w + rest)
    ensures Reaches(cfg, a, a.(mode := Type, bits := AsBits(rest)), limit)
  {
    hide Wf, Tables.Ok, TableOk, Decode, Reaches, AsBits, Bits.Drop;
    WordFront(a.lcode, w, 96, 0, rest);
    LenReaches(cfg, a, Decode(a.lcode, a.bits).value.0, |w|, limit);
  }

  lemma MatchBits(c: Coding, t: Token, rest: seq<bool>)
    requires t.Match? && TokenOk(c, t)
    ensures var l, d := c.lenRange(t.len), c.distRange(t.dist);
            TokenBits(c, t) + rest == c.lenWord(l.symbol) + (Field(t.len - l.least, l.extra)
                                      + (c.distWord(d.symbol) + (Field(t.dist - d.least, d.extra) + rest)))
  {
    hide Field, InRange;
    var l, d := c.lenRange(t.len), c.distRange(t.dist);
    SmallExtra(l, t.len);
    SmallExtra(d, t.dist);
    Regrouped(c.lenWord(l.symbol), Field(t.len - l.least, l.extra), c.distWord(d.symbol), Field(t.dist - d.least, d.extra), rest);
  }

  lemma Regrouped(a: seq<bool>, b: seq<bool>, c: seq<bool>, d: seq<bool>, e: seq<bool>)
    ensures a + b + (c + d) + e == a + (b + (c + (d + e)))
  {
  }

  lemma {:induction false} ExpandFirst(h: seq<byte>, t: Token, ts: seq<Token>)
    ensures Expand(h, [t] + ts) == if Apply(h, t).None? then None else Expand(Apply(h, t).value, ts)
    decreases |ts|
  {
    var all := [t] + ts;
    if ts == [] {
      assert all == [t] && all[..0] == [];
    } else {
      ExpandFirst(h, t, ts[..|ts| - 1]);
      assert all[..|all| - 1] == [t] + ts[..|ts| - 1];
    }
  }

  /** The tokens of a block are read back as their expansion. */
  lemma {:induction false} TokensRead(cfg: Config, a: State, c: Coding, ts: seq<Token>, rest: seq<bool>, limit: nat)
    requires cfg.tables.Ok() && Wf(a) && a.mode.Len? && TokensInRange(ts, cfg.wSize)
    requires forall t :: t in ts ==> TokenOk(c, t) && TokenSpelled(a.lcode, a.dcode, c, t)
    requires a.bits == AsBits(TokensBits(c, ts) + rest)
    requires Expand(a.out, ts).Some? && |Expand(a.out, ts).value| <= limit
    ensures Reaches(cfg, a, a.(bits := AsBits(rest), out := Expand(a.out, ts).value), limit)
    decreases |ts|
  {
    hide Wf, Tables.Ok, AsBits, Reaches, TokenSpelled, TokenOk, Expand, TokenBits, TokensBits, Apply;
    if ts == [] {
      NoTokens(c, a.out, rest);
      ReachesSame(cfg, a, limit);
    } else {
      var t, us := ts[0], ts[1..];
      FirstToken(c, a.out, ts, rest);
      var more := TokensBits(c, us) + rest;
      var g := Apply(a.out, t).value;
      TokenRead(cfg, a, c, t, more, limit);
      var b := a.(bits := AsBits(more), out := g);
      ReachesWf(cfg, a, b, limit);
      TokensRead(cfg, b, c, us, rest, limit);
      ReachesTrans(cfg, a, b, a.(bits := AsBits(rest), out := Expand(g, us).value), limit);
    }
  }

  lemma NoTokens(c: Coding, h: seq<byte>, rest: seq<bool>)
    ensures TokensBits(c, []) + rest == rest && Expand(h, []) == Some(h)
  {
  }

  lemma FirstToken(c: Coding, h: seq<byte>, ts: seq<Token>, rest: seq<bool>)
    requires ts != [] && (forall t :: t in ts ==> TokenOk(c, t)) && Expand(h, ts).Some?
    ensures TokensBits(c, ts) + rest == TokenBits(c, ts[0]) + (TokensBits(c, ts[1..]) + rest)
    ensures Apply(h, ts[0]).Some? && Expand(Apply(h, ts[0]).value, ts[1..]) == Expand(h, ts)
    ensures |Apply(h, ts[0]).value| <= |Expand(h, ts).value|
  {
    hide TokenBits, Apply, Expand;
    assert ts == [ts[0]] + ts[1..];
    ExpandFirst(h, ts[0], ts[1..]);
    ExpandLonger(Apply(h, ts[0]).value, ts[1..]);
  }

  lemma {:induction false} ExpandLonger(h: seq<byte>, ts: seq<Token>)
    requires Expand(h, ts).Some?
    ensures |h| <= |Expand(h, ts).value|
    decreases |ts|
  {
    if ts != [] { ExpandLonger(h, ts[..|ts| - 1]); }
  }

  // ---- blocks ----

  /** The tables that the machine makes or has lead from the words to their symbols. */
  ghost predicate Readable(cfg: Config, w: Written) {
    match w
    case StoredBlock(_, _) => true
    case CodedBlock(codes, coding, tokens) =>
      && TablesOf(cfg, codes).Some? && ItemsSpelled(cfg, codes)
      && var (l, d) := TablesOf(cfg, codes).value;
         Leads(l, coding.lenWord(END_OF_BLOCK), 96, 0) && forall t :: t in tokens ==> TokenSpelled(l, d, coding, t)
  }

  /** What a block is to add to the history. */
  function Meaning(h: seq<byte>, w: Written): Option<seq<byte>> {
    match w
    case StoredBlock(_, raw) => Some(h + raw)
    case CodedBlock(_, _, tokens) => Expand(h, tokens)
  }

  predicate Near(w: Written, maxDist: int) {
    w.CodedBlock? ==> TokensInRange(w.tokens, maxDist)
  }

  lemma StoredBody(cfg: Config, a: State, pad: seq<bool>, raw: seq<byte>, rest: seq<bool>, limit: nat)
    requires cfg.tables.Ok() && Wf(a) && a.mode.StoredLen? && |pad| < 8 && |raw| <= 0xffff && |rest| % 8 == 0
    requires a.bits == AsBits(pad + (Field(|raw|, 16) + (Field(0xffff - |raw|, 16) + BitsOf(raw))) + rest)
    requires |a.out| + |raw| <= limit
    ensures Reaches(cfg, a, a.(mode := Type, bits := AsBits(rest), out := a.out + raw), limit)
  {
    hide Wf, Tables.Ok, AsBits, Reaches, Field, BitsOf;
    var more := BitsOf(raw) + rest;
    StoredBits(pad, raw, rest);
    StoredRead(cfg, a, pad, |raw|, more, limit);
    var b := a.(mode := Copy(|raw|), bits := AsBits(more));
    ReachesWf(cfg, a, b, limit);
    RawRead(cfg, b, raw, rest, limit);
    ReachesTrans(cfg, a, b, a.(mode := Type, bits := AsBits(rest), out := a.out + raw), limit);
  }

  lemma StoredBits(pad: seq<bool>, raw: seq<byte>, rest: seq<bool>)
    requires |raw| <= 0xffff && |rest| % 8 == 0
    ensures |BitsOf(raw) + rest| % 8 == 0
    ensures pad + (Field(|raw|, 16) + (Field(0xffff - |raw|, 16) + BitsOf(raw))) + rest
         == pad + (Field(|raw|, 16) + (Field(0xffff - |raw|, 16) + (BitsOf(raw) + rest)))
  {
    hide Field, BitsOf;
    Nested(pad, Field(|raw|, 16), Field(0xffff - |raw|, 16), BitsOf(raw), rest);
    OddShift(|rest|, |raw|);
  }

  lemma Nested(a: seq<bool>, b: seq<bool>, c: seq<bool>, d: seq<bool>, e: seq<bool>)
    ensures a + (b + (c + d)) + e == a + (b + (c + (d + e)))
  {
  }

  /** The header of a coded block, fixed or dynamic, and its tables. */
  lemma TablesRead(cfg: Config, a: State, codes: Codes, rest: seq<bool>, limit: nat) returns (c: State)
    requires cfg.tables.Ok() && Wf(a) && a.mode.Type? && codes.Ok() && TablesOf(cfg, codes).Some? && ItemsSpelled(cfg, codes)
    requires a.bits == AsBits(codes.Bits() + rest)
    requires Wf(BlockOfKind(cfg, a, codes.Kind()))
    ensures Reaches(cfg, BlockOfKind(cfg, a, codes.Kind()), c, limit)
    ensures c == a.(mode := Len, lens := c.lens, lcode := TablesOf(cfg, codes).value.0, dcode := TablesOf(cfg, codes).value.1,
                    bits := AsBits(rest))
  {
    hide Wf, Tables.Ok, AsBits, Reaches, ItemsSpelled;
    var b := BlockOfKind(cfg, a, codes.Kind());
    if codes.FixedCodes? {
      NoBits(rest);
      ReachesSame(cfg, b, limit);
      c := b;
    } else {
      c := CodesRead(cfg, b, codes, rest, limit);
    }
  }

  lemma CodedBody(cfg: Config, a: State, coding: Coding, ts: seq<Token>, rest: seq<bool>, limit: nat)
    requires cfg.tables.Ok() && Wf(a) && a.mode.Len? && TokensInRange(ts, cfg.wSize)
    requires Leads(a.lcode, coding.lenWord(END_OF_BLOCK), 96, 0)
    requires forall t :: t in ts ==> TokenOk(coding, t) && TokenSpelled(a.lcode, a.dcode, coding, t)
    requires a.bits == AsBits(TokensBits(coding, ts) + coding.lenWord(END_OF_BLOCK) + rest)
    requires Expand(a.out, ts).Some? && |Expand(a.out, ts).value| <= limit
    ensures Reaches(cfg, a, a.(mode := Type, bits := AsBits(rest), out := Expand(a.out, ts).value), limit)
  {
    hide Wf, Tables.Ok, AsBits, Reaches, TokenSpelled, TokenOk, Expand, TokensBits, Leads;
    var more := coding.lenWord(END_OF_BLOCK) + rest;
    assert TokensBits(coding, ts) + coding.lenWord(END_OF_BLOCK) + rest == TokensBits(coding, ts) + more;
    TokensRead(cfg, a, coding, ts, more, limit);
    var b := a.(bits := AsBits(more), out := Expand(a.out, ts).value);
    ReachesWf(cfg, a, b, limit);
    EndRead(cfg, b, coding.lenWord(END_OF_BLOCK), rest, limit);
    ReachesTrans(cfg, a, b, b.(mode := Type, bits := AsBits(rest)), limit);
  }

  /** A block is read back, whatever it is written as. */
  lemma BlockRead(cfg: Config, a: State, w: Written, pos: nat, last: bool, rest: seq<bool>, limit: nat) returns (c: State)
    requires cfg.tables.Ok() && Wf(a) && a.mode.Type? && !a.last && w.Ok(pos) && Readable(cfg, w) && Near(w, cfg.wSize)
    requires a.bits == AsBits(w.Bits(pos, last) + rest) && (pos + |w.Bits(pos, last)| + |rest|) % 8 == 0
    requires Meaning(a.out, w).Some? && |Meaning(a.out, w).value| <= limit
    ensures Reaches(cfg, a, c, limit)
    ensures c.mode.Type? && c.last == last && c.bits == AsBits(rest) && c.out == Meaning(a.out, w).value
  {
    hide Wf, Tables.Ok, AsBits, Reaches, Field, Expand, TokensBits, Leads, TokenSpelled, TokenOk, ItemsSpelled, TablesOf,
         TokensInRange, Codes.Bits;
    var kind := if w.StoredBlock? then 0 else w.codes.Kind();
    var more := w.Body(pos) + rest;
    assert w.Bits(pos, last) + rest == Field(Flag(last), 1) + (Field(kind, 2) + more);
    TypeRead(cfg, a, last, kind, more, limit);
    var b := a.(last := last, bits := AsBits(more));
    var d := BlockOfKind(cfg, b, kind);
    ReachesWf(cfg, a, d, limit);
    match w
    case StoredBlock(pad, raw) =>
      StoredBody(cfg, d, pad, raw, rest, limit);
      c := d.(mode := Type, bits := AsBits(rest), out := d.out + raw);
      ReachesTrans(cfg, a, d, c, limit);
    case CodedBlock(codes, coding, ts) =>
      var tail := TokensBits(coding, ts) + coding.lenWord(END_OF_BLOCK) + rest;
      assert more == codes.Bits() + tail;
      Known(more);
      TypeWf(b, a);
      var e := TablesRead(cfg, b, codes, tail, limit);
      ReachesTrans(cfg, a, d, e, limit);
      ReachesWf(cfg, a, e, limit);
      CodedBody(cfg, e, coding, ts, rest, limit);
      c := e.(mode := Type, bits := AsBits(rest), out := Expand(e.out, ts).value);
      ReachesTrans(cfg, a, e, c, limit);
  }

  lemma TypeWf(b: State, a: State)
    requires Wf(a) && b.mode.Type? && b == a.(last := b.last, bits := b.bits) && b.bits.u < Pow2(b.bits.n)
    ensures Wf(b)
  {
  }

  // ---- streams ----

  function MeaningOf(h: seq<byte>, ws: seq<Written>): Option<seq<byte>>
    decreases |ws|
  {
    if ws == [] then Some(h) else
      match Meaning(h, ws[0])
      case None => None
      case Some(g) => MeaningOf(g, ws[1..])
  }

  lemma {:induction false} MeaningLonger(h: seq<byte>, ws: seq<Written>)
    requires MeaningOf(h, ws).Some?
    ensures |h| <= |MeaningOf(h, ws).value|
    decreases |ws|
  {
    if ws != [] {
      if ws[0].CodedBlock? { ExpandLonger(h, ws[0].tokens); }
      MeaningLonger(Meaning(h, ws[0]).value, ws[1..]);
    }
  }

  /** Any stream of blocks is read back, block after block; `rest` is what comes behind it. */
  lemma {:induction false} StreamRead(cfg: Config, a: State, ws: seq<Written>, pos: nat, closed: bool, rest: seq<bool>, limit: nat)
    returns (c: State)
    requires cfg.tables.Ok() && Wf(a) && a.mode.Type? && !a.last && StreamOk(ws, pos, closed)
    requires forall w :: w in ws ==> Readable(cfg, w) && Near(w, cfg.wSize)
    requires a.bits == AsBits(StreamBits(ws, pos, closed) + rest) && (pos + |StreamBits(ws, pos, closed)| + |rest|) % 8 == 0
    requires MeaningOf(a.out, ws).Some? && |MeaningOf(a.out, ws).value| <= limit
    ensures Reaches(cfg, a, c, limit)
    ensures c.mode.Type? && c.last == (closed && ws != []) && c.bits == AsBits(rest) && c.out == MeaningOf(a.out, ws).value
    decreases |ws|
  {
    hide Wf, Tables.Ok, AsBits, Reaches, Readable, Near, Meaning, Written.Ok, Written.Bits;
    if ws == [] {
      NoBits(rest);
      ReachesSame(cfg, a, limit);
      c := a;
    } else {
      var last := closed && |ws| == 1;
      var b := ws[0].Bits(pos, last);
      var more := StreamBits(ws[1..], pos + |b|, closed) + rest;
      assert StreamBits(ws, pos, closed) + rest == b + more;
      MeaningLonger(Meaning(a.out, ws[0]).value, ws[1..]);
      var d := BlockRead(cfg, a, ws[0], pos, last, more, limit);
      ReachesWf(cfg, a, d, limit);
      if last {
        assert ws[1..] == [];
        NoBits(rest);
        c := d;
      } else {
        c := StreamRead(cfg, d, ws[1..], pos + |b|, closed, rest, limit);
        ReachesTrans(cfg, a, d, c, limit);
      }
    }
  }

  /** Behind the last block the machine drops what is left of a byte, and is done. */
  lemma StreamEnds(cfg: Config, a: State, limit: nat)
    requires cfg.tables.Ok() && Wf(a) && a.mode.Type? && a.last
    ensures Run(cfg, a, limit) == a.(mode := Done, bits := a.bits.Drop(Odd(a.bits.n)))
  {
    StepCases(cfg, a, limit);
    var b := a.(mode := Done, bits := a.bits.Drop(Odd(a.bits.n)));
    hide Wf, Tables.Ok;
    StepReaches(cfg, a, b, limit);
    ReachesWf(cfg, a, b, limit);
  }

  /** A closed stream of blocks, filled up to a byte, inflates to what it means. */
  lemma StreamInflates(cfg: Config, a: State, ws: seq<Written>, fill: seq<bool>, limit: nat)
    requires cfg.tables.Ok() && Wf(a) && a.mode.Type? && !a.last && StreamOk(ws, 0, true) && ws != []
    requires forall w :: w in ws ==> Readable(cfg, w) && Near(w, cfg.wSize)
    requires a.bits == AsBits(StreamBits(ws, 0, true) + fill) && |fill| < 8 && (|StreamBits(ws, 0, true)| + |fill|) % 8 == 0
    requires MeaningOf(a.out, ws).Some? && |MeaningOf(a.out, ws).value| <= limit
    ensures var r := Run(cfg, a, limit); r.mode.Done? && r.bits == Bits(0, 0) && r.out == MeaningOf(a.out, ws).value
  {
    hide Wf, Tables.Ok, Run, Readable, Near, StreamBits, StreamOk, MeaningOf, AsBits, Bits.Drop;
    var c := StreamRead(cfg, a, ws, 0, true, fill, limit);
    ReachesWf(cfg, a, c, limit);
    StreamEnds(cfg, c, limit);
    AllDropped(fill);
  }

  lemma AllDropped(fill: seq<bool>)
    requires |fill| < 8
    ensures AsBits(fill).n == |fill| == Odd(|fill|) && AsBits(fill).Drop(|fill|) == Bits(0, 0)
  {
    FrontOf(fill, []);
    assert fill + [] == fill;
  }

  // ---- what is refused ----

  /** The third kind of coded block does not exist. */
  lemma KindRefused(cfg: Config, a: State, last: bool, rest: seq<bool>, limit: nat)
    requires cfg.tables.Ok() && Wf(a) && a.mode.Type? && !a.last
    requires a.bits == AsBits(Field(Flag(last), 1) + (Field(3, 2) + rest))
    ensures Reaches(cfg, a, a.(mode := Bad, last := last, bits := AsBits(rest)), limit)
  {
    hide Wf, Tables.Ok, AsBits, Reaches, Field;
    TypeRead(cfg, a, last, 3, rest, limit);
  }

  /** A length without its complement. */
  lemma LengthRefused(cfg: Config, a: State, len: nat, other: nat, rest: seq<bool>, limit: nat)
    requires cfg.tables.Ok() && Wf(a) && a.mode.StoredLen? && |rest| % 8 == 0 && len <= 0xffff && other <= 0xffff
    requires a.bits == AsBits(Field(len, 16) + (Field(other, 16) + rest)) && len + other != 0xffff
    ensures Reaches(cfg, a, a.(mode := Bad), limit)
  {
    hide Pow2, Wf, Tables.Ok, Bits.Peek, Bits.Drop, Reaches, Step, AsBits;
    TwoNumbers(len, other, rest);
    StepCases(cfg, a, limit);
    StepReaches(cfg, a, a.(mode := Bad), limit);
  }

  lemma TwoNumbers(x: nat, y: nat, rest: seq<bool>)
    requires |rest| % 8 == 0 && x <= 0xffff && y <= 0xffff
    ensures var b := AsBits(Field(x, 16) + (Field(y, 16) + rest));
            b.n >= 32 && Odd(b.n) == 0 && b.Peek(16) == x && b.Drop(16).Peek(16) == y
  {
    Sixteen();
    hide Pow2, Bits.Peek, Bits.Drop;
    FieldFront(x, 16, Field(y, 16) + rest);
    FieldFront(y, 16, rest);
  }

  /** More than 286 lengths or 30 distances. */
  lemma SizesRefused(cfg: Config, a: State, hlit: nat, hdist: nat, hclen: nat, rest: seq<bool>, limit: nat)
    requires cfg.tables.Ok() && Wf(a) && a.mode.TableSizes? && hlit < 32 && hdist < 32 && hclen < 16
    requires hlit + 257 > 286 || hdist + 1 > 30
    requires a.bits == AsBits(Field(hlit, 5) + (Field(hdist, 5) + (Field(hclen, 4) + rest)))
    ensures Reaches(cfg, a, a.(mode := Bad, bits := AsBits(rest)), limit)
  {
    hide Pow2, Wf, Tables.Ok, Bits.Peek, Bits.Drop, Reaches, Step;
    SizesFront(hlit, hdist, hclen, rest);
    hide AsBits;
    StepCases(cfg, a, limit);
    StepReaches(cfg, a, a.(mode := Bad, bits := AsBits(rest)), limit);
  }

  lemma SizesFront(x: nat, y: nat, z: nat, rest: seq<bool>)
    requires x < 32 && y < 32 && z < 16
    ensures var b := AsBits(Field(x, 5) + (Field(y, 5) + (Field(z, 4) + rest)));
            b.n >= 14 && b.Peek(5) == x && b.Drop(5).Peek(5) == y && b.Drop(10).Peek(4) == z && b.Drop(14) == AsBits(rest)
  {
    assert Pow2(5) == 32 && Pow2(4) == 16;
    hide Pow2, Bits.Peek, Bits.Drop;
    FieldFront(x, 5, Field(y, 5) + (Field(z, 4) + rest));
    FieldFront(y, 5, Field(z, 4) + rest);
    FieldFront(z, 4, rest);
    var b := AsBits(Field(x, 5) + (Field(y, 5) + (Field(z, 4) + rest)));
    DropDrop(b, 5, 5);
    DropDrop(b, 10, 4);
  }

  /** A repetition of nothing, or of too much. */
  lemma ItemRefused(cfg: Config, a: State, w: Words, nlen: nat, ndist: nat, lens: seq<nat>, item: Item, rest: seq<bool>, limit: nat)
    returns (b: State)
    requires cfg.tables.Ok() && Wf(a) && Holds(a, nlen, ndist, lens) && |lens| < nlen + ndist
    requires item.Ok() && Spells(a.lcode, w(item.Symbol()), item.Symbol())
    requires AddItem(lens, item).None? || |AddItem(lens, item).value| > nlen + ndist
    requires a.bits == AsBits(w(item.Symbol()) + item.Extra() + rest)
    ensures Reaches(cfg, a, b, limit) && b.mode.Bad?
  {
    assert |a.lens| == LENS && 257 <= nlen <= 286 && ndist <= 30 && |lens| < nlen + ndist;
    StepCases(cfg, a, limit);
    hide Wf, Tables.Ok, Bits.Peek, Bits.Drop, Spells, LensTableOk, Step, Reaches, AsBits;
    assert a.mode == CodeLens(nlen, ndist, |lens|);
    ItemFront(a.lcode, w(item.Symbol()), item, rest);
    b := StepCodeLens(cfg, a, nlen, ndist, |lens|).value;
    StepReaches(cfg, a, b, limit);
  }

  /** The table has the word for no symbol. */
  ghost predicate Unused(t: Table, w: seq<bool>) {
    && TableOk(t) && Decode(t, AsBits(w)).Some? && Decode(t, AsBits(w)).value.1 == |w|
    && 64 <= Decode(t, AsBits(w)).value.0.op < 80
  }

  /** A word without a symbol, for a length or for a distance. */
  lemma WordRefused(cfg: Config, a: State, w: seq<bool>, rest: seq<bool>, limit: nat)
    requires cfg.tables.Ok() && Wf(a) && (a.mode.Len? || a.mode.Dist?) && a.bits == AsBits(w + rest)
    requires Unused(if a.mode.Len? then a.lcode else a.dcode, w)
    ensures Reaches(cfg, a, a.(mode := Bad, bits := AsBits(rest)), limit)
  {
    hide Wf, Tables.Ok, TableOk, Decode, Reaches, AsBits, Bits.Drop;
    var t := if a.mode.Len? then a.lcode else a.dcode;
    var e := Decode(t, AsBits(w)).value.0;
    WordFront(t, w, e.op, e.val, rest);
    if a.mode.Len? {
      LenReaches(cfg, a, e, |w|, limit);
    } else {
      DistReaches(cfg, a, e, |w|, limit);
    }
  }

  /** A distance beyond the window, and one beyond all output. */
  lemma FarDistance(cfg: Config, a: State, w: seq<bool>, r: Range, dist: nat, rest: seq<bool>, limit: nat)
    requires cfg.tables.Ok() && Wf(a) && a.mode.Dist? && InRange(r, dist, DISTANCES) && Leads(a.dcode, w, 16 + r.extra, r.least)
    requires a.bits == AsBits(w + (Field(dist - r.least, r.extra) + rest))
    ensures dist > cfg.wSize ==>
              Reaches(cfg, a, a.(mode := TooFar(a.mode.length, dist), bits := AsBits(rest)), limit)
    ensures dist <= cfg.wSize && dist > |a.out| && |a.out| < limit ==>
              Reaches(cfg, a, a.(mode := Bad, bits := AsBits(rest)), limit)
  {
    hide Wf, Tables.Ok, TableOk, Decode, Bits.Peek, Bits.Drop, Pow2, Reaches, AsBits, InRange, Field;
    if dist > cfg.wSize {
      SmallExtra(r, dist);
      var more := Field(dist - r.least, r.extra) + rest;
      WordFront(a.dcode, w, 16 + r.extra, r.least, more);
      DistReaches(cfg, a, Decode(a.dcode, a.bits).value.0, |w|, limit);
      var b := a.(mode := DistExt(a.mode.length, r.least, r.extra), bits := AsBits(more));
      ReachesWf(cfg, a, b, limit);
      FieldFront(dist - r.least, r.extra, rest);
      DistExtReaches(cfg, b, limit);
      ReachesTrans(cfg, a, b, a.(mode := TooFar(a.mode.length, dist), bits := AsBits(rest)), limit);
    } else if dist > |a.out| && |a.out| < limit {
      DistanceTaken(cfg, a, w, r, dist, rest, limit);
      var b := a.(mode := MatchCopy(a.mode.length, dist), bits := AsBits(rest));
      ReachesWf(cfg, a, b, limit);
      BadReaches(cfg, b, limit);
      ReachesTrans(cfg, a, b, b.(mode := Bad), limit);
    }
  }
}
