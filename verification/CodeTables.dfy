/** Two-level decoding tables (inftrees.h) and the code they decode. */
module CodeTables {
  import opened Binary
  import opened BitSource
  import opened Lz77

  /** One table entry.  op: 0 literal; 1..15 link to a table of op index bits;
      16 + e length or distance with e extra bits; 96 end of block; 64..79
      invalid code. */
  datatype Code = Code(op: nat, bits: nat, val: nat) {
    predicate IsLink() { 1 <= op < 16 }
  }

  /** codes[0..2^root) is the first level; links give offsets into codes. */
  datatype Table = Table(root: nat, codes: seq<Code>)

  function Entry(codes: seq<Code>, from: nat, i: nat): Code
    requires from + i < |codes|
  {
    codes[from + i]
  }

  /** The code's own bits decide: indices that agree on the low
      `Entry(i).bits` bits hold the same entry.  The table starts at `from`
      and has `size` index bits. */
  ghost predicate Replicated(codes: seq<Code>, from: nat, size: nat)
    requires from + Pow2(size) <= |codes|
  {
    forall i, j :: 0 <= i < Pow2(size) && 0 <= j < Pow2(size)
      && i % Pow2(Entry(codes, from, i).bits) == j % Pow2(Entry(codes, from, i).bits)
      ==> Entry(codes, from, i) == Entry(codes, from, j)
  }

  ghost predicate SubTableOk(t: Table, e: Code) {
    && e.bits == t.root && t.root + e.op <= 15
    && e.val + Pow2(e.op) <= |t.codes|
    && Replicated(t.codes, e.val, e.op)
    && forall k :: 0 <= k < Pow2(e.op) ==>
         !Entry(t.codes, e.val, k).IsLink() && 1 <= Entry(t.codes, e.val, k).bits <= e.op
  }

  /** What inflate_table promises about the shape of a table. */
  ghost predicate TableOk(t: Table) {
    && 1 <= t.root <= 15 && Pow2(t.root) <= |t.codes|
    && Replicated(t.codes, 0, t.root)
    && forall i :: 0 <= i < Pow2(t.root) ==>
         && 1 <= Entry(t.codes, 0, i).bits <= t.root
         && (Entry(t.codes, 0, i).IsLink() ==> SubTableOk(t, Entry(t.codes, 0, i)))
  }

  /** Entries a decoder can end on. */
  ghost predicate Leaf(t: Table, e: Code) {
    !e.IsLink() && e in t.codes
  }

  /** Literal/length tables: lengths stay within 3..258, literals within a byte. */
  ghost predicate LengthCode(e: Code) {
    || (e.op == 0 && e.val < 256)
    || (16 <= e.op <= 16 + 5 && MIN_MATCH <= e.val && e.val + Pow2(e.op - 16) - 1 <= MAX_MATCH)
    || e.op == 96 || 64 <= e.op < 80
  }

  /** Distance tables: at most 13 extra bits, distances within 1..32768. */
  ghost predicate DistanceCode(e: Code) {
    || (16 <= e.op <= 16 + 13 && 1 <= e.val && e.val + Pow2(e.op - 16) - 1 <= 0x8000)
    || 64 <= e.op < 80
  }

  ghost predicate LengthTableOk(t: Table) {
    TableOk(t) && forall e :: Leaf(t, e) ==> LengthCode(e)
  }

  ghost predicate DistanceTableOk(t: Table) {
    TableOk(t) && forall e :: Leaf(t, e) ==> DistanceCode(e)
  }

  /** Code-length tables have one level of at most 7 bits. */
  ghost predicate LensTableOk(t: Table) {
    && 1 <= t.root <= 7 && Pow2(t.root) <= |t.codes| && Replicated(t.codes, 0, t.root)
    && forall i :: 0 <= i < Pow2(t.root) ==>
         1 <= Entry(t.codes, 0, i).bits <= t.root && Entry(t.codes, 0, i).val <= 18
  }

  /** The symbol at the front of the stream and how many bits it takes; None
      when the bits known so far do not complete a code. */
  function Decode(t: Table, b: Bits): Option<(Code, nat)>
    requires TableOk(t)
  {
    var e := Entry(t.codes, 0, b.Peek(t.root));
    if e.bits > b.n then None
    else if e.IsLink() then
      var s := Entry(t.codes, e.val, b.Drop(e.bits).Peek(e.op));
      if e.bits + s.bits > b.n then None else Some((s, e.bits + s.bits))
    else Some((e, e.bits))
  }

  lemma PeekPeek(b: Bits, j: nat, k: nat)
    requires j <= k
    ensures b.Peek(k) % Pow2(j) == b.Peek(j)
  {
    ModMod(b.u, j, k);
  }

  /** Both levels look at entries through this: if two sources agree on the
      bits an entry claims, they index the same entry. */
  lemma SameEntry(codes: seq<Code>, from: nat, size: nat, b: Bits, c: Bits)
    requires from + Pow2(size) <= |codes| && Replicated(codes, from, size)
    requires Entry(codes, from, b.Peek(size)).bits <= size
    requires b.Peek(Entry(codes, from, b.Peek(size)).bits) == c.Peek(Entry(codes, from, b.Peek(size)).bits)
    ensures Entry(codes, from, c.Peek(size)) == Entry(codes, from, b.Peek(size))
  {
    var k := Entry(codes, from, b.Peek(size)).bits;
    PeekPeek(b, k, size);
    PeekPeek(c, k, size);
  }

  /** c starts with all the bits of b. */
  ghost predicate Starts(b: Bits, c: Bits) {
    b.n <= c.n && b.Peek(b.n) == c.Peek(b.n)
  }

  lemma StartsPeek(b: Bits, c: Bits, k: nat)
    requires Starts(b, c) && k <= b.n
    ensures b.Peek(k) == c.Peek(k)
  {
    PeekPeek(b, k, b.n);
    PeekPeek(c, k, b.n);
  }

  lemma StartsDrop(b: Bits, c: Bits, k: nat)
    requires Starts(b, c) && k <= b.n
    ensures Starts(b.Drop(k), c.Drop(k))
  {
    ShiftedPeek(b.u, k, b.n);
    ShiftedPeek(c.u, k, b.n);
  }

  lemma ShiftedPeek(u: nat, k: nat, n: nat)
    requires k <= n
    ensures u / Pow2(k) % Pow2(n - k) == u % Pow2(n) / Pow2(k)
  {
    Pow2Add(k, n - k);
    DivOfMod(u, Pow2(k), Pow2(n - k));
  }

  lemma DivOfMod(u: nat, p: nat, q: nat)
    requires p > 0 && q > 0 && p * q > 0
    ensures u / p % q == u % (p * q) / p
  {
    var m, r := u / p, u % p;
    var m', r' := m / q, m % q;
    assert u == p * m + r && m == q * m' + r';
    MulDistributes(q * m', r', p);
    MulAssoc(m', q, p);
    assert u == m' * (p * q) + (r' * p + r);
    MulDistributes(r', q - r', p);
    MulGrows(q - r', p);
    DivModUnique(u, p * q, m', r' * p + r);
    DivModUnique(r' * p + r, p, r', r);
  }

  /** A code completed by the bits so far is not changed by later bits. */
  lemma DecodeStable(t: Table, b: Bits, c: Bits)
    requires TableOk(t) && Starts(b, c) && Decode(t, b).Some?
    ensures Decode(t, c) == Decode(t, b)
  {
    var e := Entry(t.codes, 0, b.Peek(t.root));
    StartsPeek(b, c, e.bits);
    SameEntry(t.codes, 0, t.root, b, c);
    if e.IsLink() {
      StartsDrop(b, c, e.bits);
      var b', c' := b.Drop(e.bits), c.Drop(e.bits);
      StartsPeek(b', c', Entry(t.codes, e.val, b'.Peek(e.op)).bits);
      SameEntry(t.codes, e.val, e.op, b', c');
    }
  }

  /** A decoded entry is a leaf and takes 1 to 15 bits. */
  lemma DecodeLeaf(t: Table, b: Bits)
    requires TableOk(t) && Decode(t, b).Some?
    ensures var (e, used) := Decode(t, b).value; Leaf(t, e) && 1 <= used <= 15 && used <= b.n
  {
  }

  /** Fifteen known bits always complete a code. */
  lemma DecodeTotal(t: Table, b: Bits)
    requires TableOk(t) && b.n >= 15
    ensures Decode(t, b).Some?
  {
  }

  /** Conversely, a code that later bits decode was already complete as soon
      as its own bits were known. */
  lemma DecodeBack(t: Table, b: Bits, c: Bits)
    requires TableOk(t) && Starts(b, c) && Decode(t, c).Some? && Decode(t, c).value.1 <= b.n
    ensures Decode(t, b) == Decode(t, c)
  {
    var e := Entry(t.codes, 0, c.Peek(t.root));
    StartsPeek(b, c, e.bits);
    SameEntry(t.codes, 0, t.root, c, b);
    if e.IsLink() {
      StartsDrop(b, c, e.bits);
      var b', c' := b.Drop(e.bits), c.Drop(e.bits);
      StartsPeek(b', c', Entry(t.codes, e.val, c'.Peek(e.op)).bits);
      SameEntry(t.codes, e.val, e.op, c', b');
    }
  }

  /** The first k bits of b on their own. */
  function Front(b: Bits, k: nat): Bits {
    Bits(b.Peek(k), k)
  }

  lemma FrontStarts(b: Bits, j: nat, k: nat)
    requires j <= k <= b.n
    ensures Starts(Front(b, k), b) && Starts(Front(b, j), Front(b, k))
    ensures Front(Front(b, k), j) == Front(b, j)
  {
    PeekPeek(b, j, k);
    PeekPeek(b, j, j);
    PeekPeek(b, k, k);
  }

  lemma FrontIsAll(b: Bits)
    requires b.u < Pow2(b.n)
    ensures Front(b, b.n) == b
  {
    SmallMod(b.u, b.n);
  }

  function First(t: Table, b: Bits): Code
    requires TableOk(t)
  {
    Entry(t.codes, 0, b.Peek(t.root))
  }

  function Second(t: Table, e: Code, b: Bits): Code
    requires TableOk(t) && SubTableOk(t, e) && e.bits <= b.n
  {
    Entry(t.codes, e.val, b.Drop(e.bits).Peek(e.op))
  }

  /** Decode, level by level. */
  lemma DecodeLevels(t: Table, b: Bits)
    requires TableOk(t)
    ensures var e := First(t, b);
            && 1 <= e.bits <= t.root <= 15 && (e.IsLink() ==> SubTableOk(t, e) && e.bits + e.op <= 15)
            && (e.bits > b.n ==> Decode(t, b) == None)
            && (e.bits <= b.n && !e.IsLink() ==> Decode(t, b) == Some((e, e.bits)))
            && (e.bits <= b.n && e.IsLink() ==>
                  var s := Second(t, e, b);
                  Decode(t, b) == if e.bits + s.bits > b.n then None else Some((s, e.bits + s.bits)))
  {
  }

  /** More bits do not change a first-level entry whose bits are all known. */
  lemma FirstStable(t: Table, b: Bits, c: Bits)
    requires TableOk(t) && Starts(b, c) && First(t, b).bits <= b.n
    ensures First(t, c) == First(t, b)
  {
    StartsPeek(b, c, First(t, b).bits);
    SameEntry(t.codes, 0, t.root, b, c);
  }

  /** Bit k = 2^i of an op field. */
  predicate HasBit(op: nat, k: nat)
    requires k > 0
  {
    Quotient(op, k) % 2 == 1
  }

  lemma OpBits(op: nat)
    requires op < 32 || 64 <= op < 80 || op == 96
    ensures 1 <= op < 16 <==> op != 0 && !HasBit(op, 16) && !HasBit(op, 64)
  {
  }

  /** In a length or a distance table, an op is a link exactly when it is
      neither 0 nor has bit 16 or 64. */
  lemma LinkBits(t: Table, b: Bits)
    requires LengthTableOk(t) || DistanceTableOk(t)
    ensures TableOk(t)
    ensures var e := First(t, b);
            e.IsLink() <==> e.op != 0 && !HasBit(e.op, 16) && !HasBit(e.op, 64)
  {
    hide HasBit, Replicated, SubTableOk;
    var e := First(t, b);
    assert !e.IsLink() ==> Leaf(t, e);
    hide TableOk;
    OpBits(e.op);
  }

  // ---- how long a code may be ----

  /** Every code of the table takes at most k bits, entry by entry. */
  ghost predicate CodesWithin(t: Table, k: nat)
    requires TableOk(t)
  {
    forall i :: 0 <= i < Pow2(t.root) ==> EntryWithin(t, Entry(t.codes, 0, i), k)
  }

  ghost predicate EntryWithin(t: Table, e: Code, k: nat) {
    if !e.IsLink() then e.bits <= k
    else
      SubTableOk(t, e) && forall j :: 0 <= j < Pow2(e.op) ==> e.bits + Entry(t.codes, e.val, j).bits <= k
  }

  lemma CodesWithinIs(t: Table, k: nat)
    requires TableOk(t)
    ensures CodesWithin(t, k) <==> forall b: Bits :: Decode(t, b).Some? ==> Decode(t, b).value.1 <= k
  {
    if CodesWithin(t, k) {
      forall b: Bits | Decode(t, b).Some? ensures Decode(t, b).value.1 <= k {
        hide TableOk, Decode, Bits.Peek, Bits.Drop, EntryWithin;
        DecodeLevels(t, b);
        assert EntryWithin(t, First(t, b), k);
        WithinLevels(t, b, k);
      }
    } else {
      var i :| 0 <= i < Pow2(t.root) && !EntryWithin(t, Entry(t.codes, 0, i), k);
      hide CodesWithin;
      var _ := LongCode(t, i, k);
    }
  }

  lemma WithinLevels(t: Table, b: Bits, k: nat)
    requires TableOk(t) && EntryWithin(t, First(t, b), k) && Decode(t, b).Some?
    ensures Decode(t, b).value.1 <= k
  {
    hide TableOk, Decode;
    DecodeLevels(t, b);
  }

  /** Bits that decode through an entry that takes more than k bits. */
  lemma LongCode(t: Table, i: nat, k: nat) returns (b: Bits)
    requires TableOk(t) && i < Pow2(t.root) && !EntryWithin(t, Entry(t.codes, 0, i), k)
    ensures Decode(t, b).Some? && Decode(t, b).value.1 > k
  {
    var e := Entry(t.codes, 0, i);
    assert 1 <= e.bits <= t.root <= 15 && Pow2(t.root) <= |t.codes| && (e.IsLink() ==> SubTableOk(t, e) && t.root + e.op <= 15);
    hide TableOk, Decode;
    if e.IsLink() {
      var j :| 0 <= j < Pow2(e.op) && e.bits + Entry(t.codes, e.val, j).bits > k;
      b := ThroughLink(t, i, j);
    } else {
      b := Bits(i, 15);
      OneLevel(i, t.root);
      DecodeLevels(t, b);
    }
  }

  lemma ThroughLink(t: Table, i: nat, j: nat) returns (b: Bits)
    requires TableOk(t) && i < Pow2(t.root) <= |t.codes| && t.root <= 15
    requires var e := Entry(t.codes, 0, i); e.IsLink() && SubTableOk(t, e) && j < Pow2(e.op)
    ensures var e := Entry(t.codes, 0, i);
            Decode(t, b) == Some((Entry(t.codes, e.val, j), e.bits + Entry(t.codes, e.val, j).bits))
  {
    hide TableOk, Decode, Bits.Peek, Bits.Drop, Replicated;
    var e := Entry(t.codes, 0, i);
    assert e.bits == t.root && t.root + e.op <= 15 && Entry(t.codes, e.val, j).bits <= e.op;
    hide Pow2;
    b := Bits(j * Pow2(t.root) + i, 30);
    TwoLevels(i, j, t.root, e.op);
    DecodeLevels(t, b);
  }

  lemma OneLevel(i: nat, r: nat)
    requires i < Pow2(r)
    ensures Bits(i, 15).Peek(r) == i
  {
    SmallMod(i, r);
  }

  lemma TwoLevels(i: nat, j: nat, r: nat, n: nat)
    requires i < Pow2(r) && j < Pow2(n)
    ensures Bits(j * Pow2(r) + i, 30).Peek(r) == i
    ensures r <= 30 ==> Bits(j * Pow2(r) + i, 30).Drop(r).Peek(n) == j
  {
    hide Pow2;
    DivModUnique(j * Pow2(r) + i, Pow2(r), j, i);
    SmallMod(j, n);
  }

  /** k bits always complete a code exactly when no code is longer. */
  lemma CompletedWithin(t: Table, k: nat)
    requires TableOk(t)
    ensures (forall b: Bits :: b.n >= k ==> Decode(t, b).Some?) <==> CodesWithin(t, k)
  {
    CodesWithinIs(t, k);
    hide TableOk, Decode, CodesWithin;
    if forall b: Bits :: b.n >= k ==> Decode(t, b).Some? {
      forall b: Bits | Decode(t, b).Some? ensures Decode(t, b).value.1 <= k {
        DecodeLeaf(t, b);
        if k <= b.n {
          FrontStarts(b, k, k);
          DecodeLeaf(t, Front(b, k));
          DecodeStable(t, Front(b, k), b);
        }
      }
    }
    if forall b: Bits :: Decode(t, b).Some? ==> Decode(t, b).value.1 <= k {
      forall b: Bits | b.n >= k ensures Decode(t, b).Some? {
        var more: seq<byte> := [0, 0];
        PeekAppend(b, more, b.n);
        var c := b.Append(more);
        DecodeTotal(t, c);
        DecodeBack(t, b, c);
      }
    }
  }
}
