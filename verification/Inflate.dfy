/** inflate.c and inffast.c for a raw stream and Z_NO_FLUSH: the resumable
    decoder over a bit accumulator and a circular window, proved to compute
    InflateSpec's machine. */
module Inflate {
  import opened Lz77
  import opened Binary
  import opened BitSource
  import opened CodeTables
  import opened InflateSpec
  import opened Window

  datatype Stage = TYPE | STORED | COPY | TABLE | LENLENS | CODELENS | LEN | LENEXT | DIST | DISTEXT
                 | MATCH | LIT | DONE | BAD

  datatype Ret = OkRet | StreamEndRet | DataErrorRet | BufErrorRet

  class InflateState {
    const tables: Tables
    const wbits: nat

    var mode: Stage
    var last: bool
    var hold: nat
    var bits: nat
    var length: nat
    var offset: nat
    var extra: nat
    var lencode: Table
    var distcode: Table
    var nlen: nat
    var ndist: nat
    var ncode: nat
    var have: nat
    const lens: array<nat>

    var wsize: nat
    var whave: nat
    var wnext: nat
    const window: array<byte>

    // strm: next_in[..avail_in] is input[next..], next_out is outBuf[put..] with `left` bytes of room
    var input: seq<byte>
    var next: nat
    var outBuf: array<byte>
    var put: nat
    var left: nat

    ghost var fed: seq<byte>          // all input of all calls
    ghost var consumed: nat           // bits of it decoded
    ghost var before: seq<byte>       // output of earlier calls
    ghost var far: Option<State>      // where the abstract machine stopped, if at TooFar

    ghost predicate Params() {
      && tables.Ok() && 8 <= wbits <= 15 && window.Length == Pow2(wbits) && 256 <= window.Length <= 0x8000
      && lens.Length == LENS
    }

    ghost function Cfg(): Config { Config(tables, window.Length) }

    // ---- the bit accumulator ----

    /** How many bytes have been pulled. */
    ghost function Pulled(): int
      reads this`fed, this`input, this`next
    {
      |fed| - |input| + next
    }

    /** (hold, bits) followed by the unread input is the undecoded bit string;
        the accumulator has 32 bits. */
    ghost predicate HoldOk()
      reads this`fed, this`input, this`next, this`consumed, this`hold, this`bits
    {
      && next <= |input| <= |fed| && fed[|fed| - |input|..] == input
      && consumed + bits == 8 * Pulled()
      && consumed <= 8 * |fed|
      && hold == Rest().Peek(bits) && bits <= 32
    }

    ghost function Rest(): Bits
      reads this`fed, this`consumed
    {
      if consumed <= 8 * |fed| then Remaining(fed, consumed) else Bits(0, 0)
    }

    method PullByte() returns (ok: bool)
      requires HoldOk() && bits <= 24
      modifies this`hold, this`bits, this`next
      ensures HoldOk() && ok == (old(next) < |input|)
      ensures if ok then bits == old(bits) + 8 && next == old(next) + 1
              else bits == old(bits) && hold == old(hold) && next == old(next) == |input|
    {
      if next == |input| { return false; }
      assert input[next] == fed[Pulled()];
      PullPeek(fed, consumed, Pulled());
      hide Pow2, Bits.Peek, Remaining;
      hold := hold + Pow2(bits) * input[next];
      bits := bits + 8;
      next := next + 1;
      ok := true;
    }

    /** Pulls bytes until n bits are held, or the input is used up. */
    method NeedBits(n: nat) returns (ok: bool)
      requires HoldOk() && (n <= 25 || (n <= 32 && Odd(bits) == 0))
      modifies this`hold, this`bits, this`next
      ensures HoldOk() && next >= old(next) && bits - old(bits) == 8 * (next - old(next))
      ensures ok ==> bits >= n && (bits == old(bits) || bits < n + 8)
      ensures !ok ==> bits < n && next == |input|
      ensures bits == old(bits) ==> hold == old(hold)
    {
      hide Pow2, Bits.Peek, Remaining;
      while bits < n
        invariant HoldOk() && next >= old(next) && bits - old(bits) == 8 * (next - old(next))
        invariant (bits == old(bits) || bits < n + 8) && Odd(bits) == Odd(old(bits))
        invariant bits == old(bits) ==> hold == old(hold)
        decreases n - bits
      {
        OddShift(bits, 1);
        var pulled := PullByte();
        if !pulled { return false; }
      }
      ok := true;
    }

    /** The low n bits of the accumulator. */
    function BitsOf(n: nat): nat
      reads this`hold
    {
      hold % Pow2(n)
    }

    lemma BitsOfIsPeek(n: nat)
      requires HoldOk() && n <= bits
      ensures BitsOf(n) == Rest().Peek(n)
    {
      PeekPeek(Rest(), n, bits);
    }

    /** Takes n bits off the accumulator. */
    method DropBits(n: nat)
      requires HoldOk() && n <= bits
      modifies this`hold, this`bits, this`consumed
      ensures HoldOk() && bits == old(bits) - n && consumed == old(consumed) + n
      ensures Rest() == old(Rest()).Drop(n)
    {
      RemainingDrop(fed, consumed, n);
      ShiftedPeek(Rest().u, n, bits);
      hide Pow2, Remaining;
      hold := Quotient(hold, Pow2(n));
      bits := bits - n;
      consumed := consumed + n;
    }

    /** The low n bits of the accumulator, taken off it. */
    method TakeBits(n: nat) returns (v: nat)
      requires HoldOk() && n <= bits
      modifies this`hold, this`bits, this`consumed
      ensures HoldOk() && bits == old(bits) - n && consumed == old(consumed) + n
      ensures Rest() == old(Rest()).Drop(n) && v == old(Rest()).Peek(n)
    {
      hide HoldOk, Bits.Drop, Bits.Peek, Rest;
      BitsOfIsPeek(n);
      v := BitsOf(n);
      DropBits(n);
    }

    /** Empties the accumulator: what it held is dropped. */
    method InitBits()
      requires HoldOk()
      modifies this`hold, this`bits, this`consumed
      ensures HoldOk() && bits == 0 && consumed == old(consumed + bits) && Rest() == old(Rest()).Drop(old(bits))
    {
      RemainingDrop(fed, consumed, bits);
      hide Pow2, Remaining;
      hold := 0;
      consumed := consumed + bits;
      bits := 0;
    }

    /** When the input is used up, the accumulator is all there is. */
    lemma HeldIsAll()
      requires HoldOk() && next == |input|
      ensures Rest().n == bits && Front(Rest(), bits) == Rest()
    {
      RemainingBound(fed, consumed);
      FrontIsAll(Rest());
    }

    /** Nothing is shifted out of a 32-bit accumulator. */
    lemma HoldFits()
      requires HoldOk()
      ensures hold < Pow2(bits) <= 0x1_0000_0000
    {
      assert hold < Pow2(bits) && bits <= 32;
      Pow2Monotone(bits, 32);
      ThirtyTwo();
      hide *;
    }

    static lemma ThirtyTwo()
      ensures Pow2(32) == 0x1_0000_0000
    {
      Pow2Add(16, 16);
      assert Pow2(8) == 256;
      Pow2Add(8, 8);
      hide Pow2;
    }

    // ---- decoding a symbol ----

    ghost function HeldUpTo(k: int): Bits
      requires HoldOk() && 0 <= k <= Rest().n
      reads this`fed, this`input, this`next, this`consumed, this`hold, this`bits
    {
      Front(Rest(), k)
    }

    lemma PulledFront()
      requires HoldOk()
      ensures bits <= Rest().n && Bits(hold, bits) == HeldUpTo(bits) && Starts(HeldUpTo(bits), Rest())
      ensures bits >= 8 ==> Starts(HeldUpTo(bits - 8), HeldUpTo(bits)) && Starts(HeldUpTo(bits - 8), Rest())
    {
      FrontStarts(Rest(), bits, bits);
      if bits >= 8 {
        FrontStarts(Rest(), bits - 8, bits);
        FrontStarts(Rest(), bits - 8, bits - 8);
      }
    }

    /** The first-level loop: pull until the entry's bits are all held. */
    method FindFirst(t: Table) returns (ok: bool, here: Code)
      requires HoldOk() && TableOk(t)
      modifies this`hold, this`bits, this`next
      ensures HoldOk() && next >= old(next) && bits - old(bits) == 8 * (next - old(next))
      ensures ok ==> here == First(t, Bits(hold, bits)) && here.bits <= bits
      ensures !ok ==> Decode(t, Rest()) == None && next == |input|
      ensures bits == old(bits) || (bits >= 8 && Decode(t, HeldUpTo(bits - 8)) == None)
      ensures bits == old(bits) ==> hold == old(hold)
    {
      hide Pow2, Bits.Peek, Remaining, Decode, HoldOk, TableOk;
      PulledFront();
      DecodeLevels(t, Bits(hold, bits));
      here := First(t, Bits(hold, bits));
      while here.bits > bits
        invariant HoldOk() && next >= old(next) && bits - old(bits) == 8 * (next - old(next))
        invariant here == First(t, Bits(hold, bits)) && here.bits <= 15
        invariant bits <= Rest().n && Bits(hold, bits) == HeldUpTo(bits)
        invariant here.bits > bits ==> Decode(t, HeldUpTo(bits)) == None
        invariant bits == old(bits) || (bits >= 8 && Decode(t, HeldUpTo(bits - 8)) == None)
        invariant bits == old(bits) ==> hold == old(hold)
        decreases 15 - bits
      {
        var pulled := PullByte();
        if !pulled {
          HeldIsAll();
          return false, here;
        }
        PulledFront();
        DecodeLevels(t, Bits(hold, bits));
        here := First(t, Bits(hold, bits));
      }
      ok := true;
    }

    lemma SecondHeld(t: Table, link: Code)
      requires HoldOk() && TableOk(t) && link == First(t, Bits(hold, bits)) && link.bits <= bits && link.IsLink()
      ensures SubTableOk(t, link) && bits <= Rest().n
      ensures var s := Second(t, link, Bits(hold, bits));
              && link.bits + s.bits <= 15
              && Decode(t, HeldUpTo(bits)) == if link.bits + s.bits > bits then None
                                              else Some((s, link.bits + s.bits))
      ensures Decode(t, Bits(hold, bits)) == Decode(t, HeldUpTo(bits))
    {
      PulledFront();
      DecodeLevels(t, Bits(hold, bits));
      var s := Second(t, link, Bits(hold, bits));
      assert s == Entry(t.codes, link.val, Bits(hold, bits).Drop(link.bits).Peek(link.op));
    }

    /** One more byte does not change the link already found. */
    lemma LinkKept(t: Table, link: Code)
      requires HoldOk() && TableOk(t) && bits >= 8 && bits - 8 <= Rest().n
      requires link == First(t, HeldUpTo(bits - 8)) && link.bits <= bits - 8
      ensures link == First(t, Bits(hold, bits))
    {
      PulledFront();
      FirstStable(t, HeldUpTo(bits - 8), HeldUpTo(bits));
    }

    /** The second-level loop. */
    method FindSecond(t: Table, link: Code) returns (ok: bool, here: Code)
      requires HoldOk() && TableOk(t) && link == First(t, Bits(hold, bits)) && link.bits <= bits && link.IsLink()
      modifies this`hold, this`bits, this`next
      ensures HoldOk() && next >= old(next) && bits - old(bits) == 8 * (next - old(next))
      ensures ok ==> link.bits + here.bits <= bits && Decode(t, Bits(hold, bits)) == Some((here, link.bits + here.bits))
      ensures !ok ==> Decode(t, Rest()) == None && next == |input|
      ensures bits == old(bits) || (bits >= 8 && Decode(t, HeldUpTo(bits - 8)) == None)
      ensures bits == old(bits) ==> hold == old(hold)
    {
      hide Pow2, Bits.Peek, Remaining, Decode, HoldOk, TableOk, Second, First, SubTableOk;
      PulledFront();
      SecondHeld(t, link);
      here := SecondEntry(t, link);
      while link.bits + here.bits > bits
        invariant HoldOk() && next >= old(next) && bits - old(bits) == 8 * (next - old(next))
        invariant link == First(t, Bits(hold, bits)) && link.bits <= bits && SubTableOk(t, link)
        invariant here == Second(t, link, Bits(hold, bits)) && link.bits + here.bits <= 15
        invariant bits <= Rest().n && Bits(hold, bits) == HeldUpTo(bits)
        invariant link.bits + here.bits > bits ==> Decode(t, HeldUpTo(bits)) == None
        invariant bits == old(bits) || (bits >= 8 && Decode(t, HeldUpTo(bits - 8)) == None)
        invariant bits == old(bits) ==> hold == old(hold)
        decreases 15 - bits
      {
        var pulled := PullByte();
        if !pulled {
          HeldIsAll();
          return false, here;
        }
        LinkKept(t, link);
        PulledFront();
        SecondHeld(t, link);
        here := SecondEntry(t, link);
      }
      SecondHeld(t, link);
      ok := true;
    }

    /** The second-level entry that the bits behind the link select. */
    function SecondEntry(t: Table, link: Code): (e: Code)
      requires TableOk(t) && SubTableOk(t, link) && link.bits <= bits
      reads this`hold, this`bits
      ensures e == Second(t, link, Bits(hold, bits))
    {
      ShiftedPeek(hold, link.bits, link.bits + link.op);
      Entry(t.codes, link.val, Quotient(BitsOf(link.bits + link.op), Pow2(link.bits)))
    }

    /** The two loops and the drops of the LEN, DIST states. */
    method DecodeSymbol(t: Table) returns (ok: bool, here: Code)
      requires HoldOk() && TableOk(t)
      modifies this`hold, this`bits, this`next, this`consumed
      ensures HoldOk() && next >= old(next)
      ensures ok ==> consumed > old(consumed) && Decode(t, old(Rest())) == Some((here, consumed - old(consumed)))
      ensures ok ==> Rest() == old(Rest()).Drop(consumed - old(consumed))
      ensures ok ==> bits < 8 || (bits <= old(bits) && Decode(t, Bits(old(hold), old(bits))).Some?)
      ensures !ok ==> Decode(t, Rest()) == None && next == |input| && consumed == old(consumed)
    {
      hide Pow2, Bits.Peek, Remaining, Decode, HoldOk, TableOk, Second;
      ok, here := FindFirst(t);
      if !ok { return; }
      PulledFront();
      DecodeLevels(t, Bits(hold, bits));
      if here.op != 0 && here.op < 16 {
        var link := here;
        ok, here := FindSecond(t, link);
        if !ok { return; }
        SymbolTakes(t, here, link.bits + here.bits, old(bits));
        DropDrop(Rest(), link.bits, here.bits);
        DropBits(link.bits);
        DropBits(here.bits);
      } else {
        SymbolTakes(t, here, here.bits, old(bits));
        DropBits(here.bits);
      }
    }

    /** What is held decodes like everything that remains, and the last byte pulled was needed. */
    lemma SymbolTakes(t: Table, here: Code, used: nat, bits0: nat)
      requires HoldOk() && TableOk(t) && Decode(t, Bits(hold, bits)) == Some((here, used))
      requires bits == bits0 || (bits >= 8 && Decode(t, HeldUpTo(bits - 8)) == None)
      ensures Decode(t, Rest()) == Some((here, used)) && 1 <= used <= bits <= Rest().n
      ensures bits == bits0 || bits - used < 8
    {
      PulledFront();
      DecodeStable(t, HeldUpTo(bits), Rest());
      DecodeLeaf(t, Rest());
      DecodeLeaf(t, HeldUpTo(bits));
      if bits != bits0 && used <= bits - 8 {
        DecodeBack(t, HeldUpTo(bits - 8), Rest());
      }
    }

    // ---- decoding a code length ----

    /** What BITS(lenbits) indexes. */
    function LensHere(): Code
      requires LensTableOk(lencode)
      reads this`lencode, this`hold
    {
      Entry(lencode.codes, 0, BitsOf(lencode.root))
    }

    ghost function LensNext(): Code
      requires LensTableOk(lencode)
      reads this`lencode, this`fed, this`consumed
    {
      Entry(lencode.codes, 0, Rest().Peek(lencode.root))
    }

    lemma LensRange()
      requires LensTableOk(lencode)
      ensures 1 <= LensHere().bits <= 7 && LensHere().val <= 18
    {
      assert 1 <= LensHere().bits <= 7 && LensHere().val <= 18;
      hide LensTableOk;
    }

    /** As soon as either side's bits are all held, both see the same entry. */
    lemma LensSettled()
      requires HoldOk() && LensTableOk(lencode)
      ensures LensHere().bits <= bits || LensNext().bits <= bits ==> LensHere() == LensNext()
    {
      var b := Bits(hold, bits);
      if LensHere().bits <= bits {
        PeekPeek(Rest(), LensHere().bits, bits);
        SameEntry(lencode.codes, 0, lencode.root, b, Rest());
      } else if LensNext().bits <= bits {
        PeekPeek(Rest(), LensNext().bits, bits);
        SameEntry(lencode.codes, 0, lencode.root, Rest(), b);
      }
      hide HoldOk, LensTableOk;
    }

    method FindLens() returns (ok: bool, here: Code)
      requires HoldOk() && LensTableOk(lencode)
      modifies this`hold, this`bits, this`next
      ensures HoldOk() && next >= old(next) && bits - old(bits) == 8 * (next - old(next))
      ensures here == LensHere() && 1 <= here.bits <= 7 && here.val <= 18
      ensures ok ==> here.bits <= bits && (bits == old(bits) || bits < here.bits + 8)
      ensures !ok ==> here.bits > bits && next == |input|
      ensures bits == old(bits) ==> hold == old(hold)
    {
      hide HoldOk, LensTableOk, LensHere, LensNext, Rest;
      LensRange();
      LensSettled();
      here := LensHere();
      while here.bits > bits
        invariant HoldOk() && next >= old(next) && bits - old(bits) == 8 * (next - old(next))
        invariant here == LensHere() && 1 <= here.bits <= 7 && here.val <= 18
        invariant here.bits <= bits ==> here == LensNext()
        invariant bits == old(bits) || bits < LensNext().bits + 8
        invariant bits == old(bits) ==> hold == old(hold)
        decreases 7 - bits
      {
        var pulled := PullByte();
        if !pulled { return false, here; }
        LensRange();
        LensSettled();
        here := LensHere();
      }
      ok := true;
    }

    // ---- the abstract state ----

    ghost function ModeOf(): Mode
      reads this`mode, this`length, this`offset, this`extra, this`nlen, this`ndist, this`ncode, this`have
    {
      match mode
      case TYPE => Type
      case STORED => StoredLen
      case COPY => Copy(length)
      case TABLE => TableSizes
      case LENLENS => LenLens(nlen, ndist, ncode, have)
      case CODELENS => CodeLens(nlen, ndist, have)
      case LEN => Len
      case LENEXT => LenExt(length, extra)
      case DIST => Dist(length)
      case DISTEXT => DistExt(length, offset, extra)
      case MATCH => MatchCopy(length, offset)
      case LIT => Lit(length % 256)
      case DONE => Done
      case BAD => Bad
    }

    /** All output so far. */
    ghost function Hist(): seq<byte>
      reads this`before, this`put, this`outBuf, outBuf
    {
      before + if put <= outBuf.Length then outBuf[..put] else []
    }

    /** What the machine of InflateSpec would be looking at. */
    ghost function Now(): State
      reads this`mode, this`length, this`offset, this`extra, this`nlen, this`ndist, this`ncode, this`have,
            this`last, this`lencode, this`distcode, this`fed, this`consumed, this`before, this`put, this`outBuf,
            outBuf, lens
    {
      State(ModeOf(), last, lencode, distcode, lens[..], Rest(), Hist())
    }

    /** The history length this call may reach. */
    ghost function Limit(): nat
      reads this`before, this`put, this`left
    {
      |before| + put + left
    }

    /** The window is the end of the history h; it is not in use while there is none. */
    ghost predicate WindowIs(h: seq<byte>)
      reads this`wsize, this`whave, this`wnext, window
    {
      if wsize == 0 then h == [] && whave == 0 && wnext == 0
      else wsize == window.Length && Circular(window[..], wsize, whave, wnext, h)
    }

    ghost predicate WindowHolds()
      reads this`wsize, this`whave, this`wnext, this`before, window
    {
      WindowIs(before)
    }

    /** How many bits a code-length symbol at the front of the held bits takes. */
    ghost function LensNeed(): nat
      reads this`lencode, this`hold
    {
      if LensTableOk(lencode) then LensHere().bits + RepeatBits(LensHere().val) else 0
    }

    /** The accumulator never holds a spare byte: either fewer than 8 bits, or
        bits that do not yet complete what the state is waiting for. */
    ghost predicate Small()
      reads this`mode, this`bits, this`hold, this`lencode, this`distcode, this`extra, this`have, this`nlen, this`ndist
    {
      match mode
      case COPY => bits == 0
      case STORED => bits < 8 || (bits < 32 && Odd(bits) == 0)
      case TABLE => bits < 14
      case CODELENS => bits < 8 || (have < nlen + ndist && bits < LensNeed())
      case LEN => bits < 8 || (TableOk(lencode) && Decode(lencode, Bits(hold, bits)) == None)
      case DIST => bits < 8 || (TableOk(distcode) && Decode(distcode, Bits(hold, bits)) == None)
      case DISTEXT => bits < 8 || bits < extra
      case DONE => true
      case BAD => true
      case _ => bits < 8
    }

    /** What holds of the decoder's own fields between states. */
    ghost predicate Core()
      reads this`mode, this`length, this`offset, this`extra, this`nlen, this`ndist, this`ncode, this`have,
            this`last, this`lencode, this`distcode, this`fed, this`consumed, this`before, this`put, this`outBuf,
            this`input, this`next, this`hold, this`bits, outBuf, lens
    {
      Params() && HoldOk() && Wf(Now()) && Small()
    }

    /** One state's code has run: the machine went the same way, and if there
        is no more to do without input or space, the machine waits too. */
    ghost predicate Advanced(a: State, more: bool)
      reads this`mode, this`length, this`offset, this`extra, this`nlen, this`ndist, this`ncode, this`have,
            this`last, this`lencode, this`distcode, this`fed, this`consumed, this`before, this`put, this`outBuf,
            this`left, outBuf, lens
    {
      && Reaches(Cfg(), a, Now(), Limit())
      && if more then Later(a, Now(), Limit()) else Step(Cfg(), Now(), Limit()) == None
    }

    lemma HeldCount()
      requires HoldOk()
      ensures Rest().n == 8 * |fed| - consumed && bits <= Rest().n && Odd(bits) == Odd(Rest().n)
      ensures Rest().n == bits + 8 * (|input| - next)
    {
      OddShift(bits, |input| - next);
      hide HoldOk;
    }

    lemma CoreGives()
      requires Core()
      ensures Params() && HoldOk() && Small() && Wf(Now()) && Cfg().tables.Ok()
      ensures Rest().n == 8 * |fed| - consumed && bits <= Rest().n && Odd(bits) == Odd(Rest().n)
      ensures mode in {TYPE, LENLENS, LENEXT, MATCH, LIT} ==> bits < 8
      ensures mode == TABLE ==> bits < 14
      ensures mode == STORED ==> bits < 8 || (bits < 32 && Odd(bits) == 0)
    {
      HeldCount();
      hide Core;
    }

    lemma SmallEnough()
      requires if mode == COPY then bits == 0
               else bits < 8 || mode == BAD || (mode == STORED && bits < 32 && Odd(bits) == 0) || (mode == TABLE && bits < 14)
      ensures Small()
    {
    }

    /** One step of the machine was made. */
    lemma Stepped(a: State)
      requires Params() && Wf(a) && HoldOk() && Step(Cfg(), a, Limit()) == Some(Now())
      requires if mode == COPY then bits == 0 else bits < 8 || mode == BAD
      ensures Core() && Advanced(a, true)
    {
      SmallEnough();
      hide Wf, HoldOk, Small, Step, Now, Tables.Ok, Reaches, Later;
      StepReaches(Cfg(), a, Now(), Limit());
      ReachesWf(Cfg(), a, Now(), Limit());
    }

    /** Nothing the machine sees has changed, and it cannot go on. */
    lemma Waits()
      requires Params() && Wf(Now()) && HoldOk() && Small() && Step(Cfg(), Now(), Limit()) == None
      ensures Core() && Advanced(Now(), false)
    {
      hide Wf, HoldOk, Small, Step;
      assert tables.Ok();
      hide Params;
    }

    // ---- one method per state ----

    /** No input is left, or no room for output. */
    predicate Exhausted()
      reads this`next, this`input, this`left
    {
      next == |input| || left == 0
    }

    lemma TypeGives()
      requires Core() && mode == TYPE
      ensures Step(Cfg(), Now(), Limit()) == StepType(Cfg(), Now())
    {
      hide StepType, Step, LengthTableOk, DistanceTableOk, LensTableOk, HoldOk, Small, Rest, Hist;
      assert tables.Ok() && Wf(Now());
      StepCases(Cfg(), Now(), Limit());
      hide Core;
    }

    lemma StoredGives()
      requires Core() && mode == STORED
      ensures Step(Cfg(), Now(), Limit()) == StepStored(Now())
    {
      hide StepStored, Step, LengthTableOk, DistanceTableOk, LensTableOk, HoldOk, Small, Rest, Hist;
      assert tables.Ok() && Wf(Now());
      StepCases(Cfg(), Now(), Limit());
      hide Core;
    }

    lemma TableGives()
      requires Core() && mode == TABLE
      ensures Step(Cfg(), Now(), Limit()) == StepTableSizes(Now())
    {
      hide StepTableSizes, Step, LengthTableOk, DistanceTableOk, LensTableOk, HoldOk, Small, Rest, Hist;
      assert tables.Ok() && Wf(Now());
      StepCases(Cfg(), Now(), Limit());
      hide Core;
    }

    /** case TYPE, TYPEDO; CHECK to DONE do nothing more for a raw stream. */
    method DoType() returns (more: bool)
      requires Core() && mode == TYPE
      modifies this`mode, this`last, this`lencode, this`distcode, this`hold, this`bits, this`next, this`consumed
      ensures more || Exhausted()
      ensures Core() && mode != MATCH && Advanced(old(Now()), more)
    {
      hide Core, Wf, HoldOk, Small, Remaining, Pow2, Odd, Bits.Peek, Bits.Drop, Rest, Hist, Params, Advanced, Tables.Ok;
      CoreGives();
      TypeGives();
      ghost var a := Now();
      if last {
        DropBits(Odd(bits));
        mode := DONE;
        Stepped(a);
        more := true;
      } else {
        more := NeedBits(3);
        HeldCount();
        if more {
          BlockType();
          Stepped(a);
        } else {
          SmallEnough();
          Waits();
        }
      }
    }

    method BlockType()
      requires HoldOk() && mode == TYPE && !last && 3 <= bits < 11 && bits <= Rest().n
      modifies this`mode, this`last, this`lencode, this`distcode, this`hold, this`bits, this`consumed
      ensures HoldOk() && StepType(Cfg(), old(Now())) == Some(Now()) && bits < 8
      ensures mode in {STORED, LEN, TABLE, BAD}
    {
      hide HoldOk, Rest, Hist, Bits.Peek, Bits.Drop, Odd, BitsOf, BlockOfKind;
      DropDrop(Rest(), 1, 2);
      var v := TakeBits(1);
      last := v == 1;
      v := TakeBits(2);
      UseKind(v);
    }

    method UseKind(kind: nat)
      requires mode == TYPE
      modifies this`mode, this`lencode, this`distcode
      ensures Now() == BlockOfKind(Cfg(), old(Now()), kind) && mode in {STORED, LEN, TABLE, BAD}
    {
      hide Hist, Rest;
      if kind == 0 {
        mode := STORED;
      } else if kind == 1 {
        lencode, distcode := tables.fixedLen, tables.fixedDist;
        mode := LEN;
      } else if kind == 2 {
        mode := TABLE;
      } else {
        mode := BAD;
      }
    }

    /** A run that goes on from where an earlier one got to. */
    lemma Onward(a: State, b: State, more: bool)
      requires Reaches(Cfg(), a, b, Limit()) && Advanced(b, more)
      ensures Advanced(a, more)
    {
      ReachesTrans(Cfg(), a, b, Now(), Limit());
    }

    /** case STORED */
    method DoStored() returns (more: bool)
      requires Core() && mode == STORED
      modifies this`mode, this`length, this`hold, this`bits, this`next, this`consumed
      ensures more || Exhausted()
      ensures Core() && mode != MATCH && Advanced(old(Now()), more)
    {
      hide *;
      ghost var a := Now();
      ByteBits();
      ghost var b := Now();
      more := StoredLength();
      Onward(a, b, more);
    }

    /** Drops the rest of a partial byte. */
    method ByteBits()
      requires Core() && mode == STORED
      modifies this`hold, this`bits, this`consumed
      ensures Core() && Odd(bits) == 0 && Reaches(Cfg(), old(Now()), Now(), Limit())
    {
      hide Core, Wf, HoldOk, Small, Remaining, Pow2, Odd, Bits.Peek, Bits.Drop, Rest, Hist, Params, Tables.Ok, Reaches;
      CoreGives();
      StoredGives();
      ghost var a := Now();
      OddDrop(bits);
      DropBits(Odd(bits));
      Aligned(a);
    }

    lemma DropNothing(b: Bits)
      ensures b.Drop(0) == b
    {
    }

    lemma Aligned(a: State)
      requires Params() && Wf(a) && HoldOk() && a.mode.StoredLen? && mode == STORED && Odd(bits) == 0 && bits < 32
      requires Now() == a.(bits := a.bits.Drop(Odd(a.bits.n)))
      ensures Core() && Reaches(Cfg(), a, Now(), Limit())
    {
      hide Wf, HoldOk, Tables.Ok, Run, Pow2;
      if Odd(a.bits.n) != 0 {
        StepReaches(Cfg(), a, Now(), Limit());
        ReachesWf(Cfg(), a, Now(), Limit());
      } else {
        DropNothing(a.bits);
      }
    }

    lemma WholeBytes(b: nat, k: nat)
      requires Odd(b) == 0
      ensures Odd(b + 8 * k) == 0
      ensures 32 <= b + 8 * k < 40 ==> b + 8 * k == 32
    {
    }

    method StoredLength() returns (more: bool)
      requires Core() && mode == STORED && Odd(bits) == 0
      modifies this`mode, this`length, this`hold, this`bits, this`next, this`consumed
      ensures more || Exhausted()
      ensures Core() && mode != MATCH && Advanced(old(Now()), more)
    {
      hide Core, Wf, HoldOk, Small, Remaining, Pow2, Odd, Bits.Peek, Bits.Drop, Rest, Hist, Params, Tables.Ok, Advanced, Step;
      CoreGives();
      StoredGives();
      ghost var a := Now();
      more := NeedBits(32);
      HeldCount();
      WholeBytes(old(bits), next - old(next));
      if more {
        StoredHeader();
        Stepped(a);
      } else {
        SmallEnough();
        Waits();
      }
    }

    lemma StoredFields()
      requires HoldOk() && bits == 32
      ensures BitsOf(16) == Rest().Peek(16) && Quotient(hold, Pow2(16)) == Rest().Drop(16).Peek(16)
    {
      hide Pow2, Remaining;
      HeldCount();
      BitsOfIsPeek(16);
      ShiftedPeek(Rest().u, 16, 32);
    }

    method StoredHeader()
      requires HoldOk() && mode == STORED && bits == 32 && bits <= Rest().n && Odd(Rest().n) == 0
      modifies this`mode, this`length, this`hold, this`bits, this`consumed
      ensures HoldOk() && StepStored(old(Now())) == Some(Now()) && (mode == COPY ==> bits == 0) && mode in {COPY, BAD}
    {
      hide HoldOk, Remaining, Pow2, Odd, Rest, Hist, BitsOf, Bits.Peek, Bits.Drop, Quotient;
      StoredFields();
      if BitsOf(16) != 0xffff - Quotient(hold, Pow2(16)) {
        mode := BAD;
      } else {
        length := BitsOf(16);
        InitBits();
        mode := COPY;
      }
    }

    /** case TABLE */
    method DoTable() returns (more: bool)
      requires Core() && mode == TABLE
      modifies this`mode, this`nlen, this`ndist, this`ncode, this`have, this`hold, this`bits, this`next, this`consumed
      ensures more || Exhausted()
      ensures Core() && mode != MATCH && Advanced(old(Now()), more)
    {
      hide Core, Wf, HoldOk, Small, Remaining, Pow2, Odd, Bits.Peek, Bits.Drop, Rest, Hist, Params, Tables.Ok, Advanced, Step;
      CoreGives();
      TableGives();
      ghost var a := Now();
      more := NeedBits(14);
      HeldCount();
      if more {
        TableHeader();
        Stepped(a);
      } else {
        SmallEnough();
        Waits();
      }
    }

    method TableHeader()
      requires HoldOk() && mode == TABLE && 14 <= bits <= Rest().n && bits < 22
      modifies this`mode, this`nlen, this`ndist, this`ncode, this`have, this`hold, this`bits, this`consumed
      ensures HoldOk() && StepTableSizes(old(Now())) == Some(Now()) && bits < 8 && mode in {BAD, LENLENS}
    {
      hide HoldOk, Rest, Hist, Bits.Peek, Bits.Drop;
      ReadSizes();
      if nlen > 286 || ndist > 30 {
        mode := BAD;
      } else {
        have := 0;
        mode := LENLENS;
      }
    }

    method ReadSizes()
      requires HoldOk() && 14 <= bits <= Rest().n
      modifies this`nlen, this`ndist, this`ncode, this`hold, this`bits, this`consumed
      ensures HoldOk() && Rest() == old(Rest()).Drop(14) && bits == old(bits) - 14
      ensures nlen == old(Rest()).Peek(5) + 257 && ndist == old(Rest()).Drop(5).Peek(5) + 1
      ensures ncode == old(Rest()).Drop(10).Peek(4) + 4
    {
      hide HoldOk, Rest, Bits.Peek, Bits.Drop;
      DropDrop(Rest(), 5, 5);
      DropDrop(Rest(), 10, 4);
      var v := TakeBits(5);
      nlen := v + 257;
      v := TakeBits(5);
      ndist := v + 1;
      v := TakeBits(4);
      ncode := v + 4;
    }

    /** case LENLENS */
    method DoLenLens() returns (more: bool)
      requires Core() && mode == LENLENS
      modifies this`mode, this`have, this`lencode, this`hold, this`bits, this`next, this`consumed, lens
      ensures more || Exhausted()
      ensures Core() && mode != MATCH && Advanced(old(Now()), more)
    {
      hide Core, Wf, HoldOk, Small, Remaining, Pow2, Odd, Bits.Peek, Bits.Drop, Rest, Hist, Params, Tables.Ok, Advanced, Step, Reaches, Later, Now, Limit;
      ghost var a := Now();
      Here();
      while have < ncode
        invariant Core() && mode == LENLENS && Reaches(Cfg(), a, Now(), Limit())
        decreases ncode - have
      {
        ghost var b := Now();
        more := OneLensLen();
        Onward(a, b, more);
        if !more { return; }
        Passed(a);
      }
      ghost var b := Now();
      CodesTable();
      Onward(a, b, true);
      more := true;
    }

    lemma Here()
      requires Core()
      ensures Reaches(Cfg(), Now(), Now(), Limit())
    {
      assert tables.Ok();
      hide Core;
    }

    lemma Passed(a: State)
      requires Advanced(a, true)
      ensures Reaches(Cfg(), a, Now(), Limit())
    {
      hide Reaches;
    }

    /** Stores one code-length length, in the permuted order. */
    method OneLensLen() returns (ok: bool)
      requires Core() && mode == LENLENS && have < ncode
      modifies this`have, this`hold, this`bits, this`next, this`consumed, lens
      ensures ok || Exhausted()
      ensures Core() && Advanced(old(Now()), ok)
      ensures have == old(have) + if ok then 1 else 0
    {
      hide Core, Wf, HoldOk, Small, Remaining, Pow2, Odd, Bits.Peek, Bits.Drop, Rest, Hist, Params, Tables.Ok, Advanced, Step, ClearRest;
      CoreGives();
      LenLensGives();
      ghost var a := Now();
      ok := NeedBits(3);
      HeldCount();
      if ok {
        var v := TakeBits(3);
        PutLensLen(v);
        Stepped(a);
      } else {
        SmallEnough();
        Waits();
      }
    }

    method PutLensLen(v: nat)
      requires lens.Length == LENS && have < 19
      modifies this`have, lens
      ensures ORDER[old(have)] < LENS && have == old(have) + 1 && lens[..] == old(lens[..])[ORDER[old(have)] := v]
    {
      lens[ORDER[have]] := v;
      have := have + 1;
    }

    lemma LenLensGives()
      requires Core() && mode == LENLENS
      ensures Step(Cfg(), Now(), Limit()) == StepLenLens(Cfg(), Now(), nlen, ndist, ncode, have)
      ensures have <= ncode <= 19 && lens.Length == LENS && bits < 8
      ensures forall i :: 0 <= i < 19 ==> ORDER[i] < 19
    {
      assert Wf(Now()) && Params() && Small();
      StepCases(Cfg(), Now(), Limit());
      hide Core;
    }

    /** The code-length lengths that were not sent are zero. */
    method ClearLens()
      requires lens.Length == LENS && have <= 19
      modifies this`have, lens
      ensures have == 19 && lens[..] == ClearRest(old(lens[..]), old(have))
    {
      while have < 19
        invariant have <= 19 && ClearRest(lens[..], have) == ClearRest(old(lens[..]), old(have))
      {
        lens[ORDER[have]] := 0;
        have := have + 1;
      }
    }

    method CodesTable()
      requires Core() && mode == LENLENS && have >= ncode
      modifies this`mode, this`have, this`lencode, lens
      ensures Core() && mode != MATCH && Advanced(old(Now()), true)
    {
      hide Core, Wf, HoldOk, Small, Remaining, Pow2, Odd, Bits.Peek, Bits.Drop, Rest, Hist, Params, Tables.Ok, Advanced, Step, ClearRest;
      CoreGives();
      LenLensGives();
      ghost var a := Now();
      ClearLens();
      assert lens[..][..19] == lens[..19];
      match tables.codes(lens[..19]) {
        case None =>
          mode := BAD;
        case Some(t) =>
          lencode := t;
          have := 0;
          mode := CODELENS;
      }
      Stepped(a);
    }

    /** case CODELENS: one length, or one run of them */
    method OneCodeLen() returns (ok: bool)
      requires Core() && mode == CODELENS && have < nlen + ndist
      modifies this`mode, this`have, this`hold, this`bits, this`next, this`consumed, lens
      ensures ok || Exhausted()
      ensures Core() && Advanced(old(Now()), ok)
      ensures mode == BAD || (mode == CODELENS && have >= old(have) + if ok then 1 else 0)
    {
      hide Core, Wf, HoldOk, Small, Remaining, Pow2, Odd, Bits.Peek, Bits.Drop, Rest, Hist, Params, Tables.Ok, Advanced, Step, StepCodeLens, LensTableOk, LensHere, LensNext;
      CoreGives();
      CodeLensGives();
      ghost var a := Now();
      var here;
      ok, here := FindLens();
      LensSettled();
      if ok {
        ok := NeedBits(here.bits + RepeatBits(here.val));
        LensSettled();
      }
      HeldCount();
      if ok {
        PutLens(here);
        Stepped(a);
      } else {
        LensWaits();
        Waits();
      }
    }

    lemma LensWaits()
      requires HoldOk() && LensTableOk(lencode) && mode == CODELENS && next == |input| && bits < LensNeed()
      requires lens.Length == LENS && have < nlen + ndist <= LENS && 257 <= nlen
      ensures Small() && StepCodeLens(Cfg(), Now(), nlen, ndist, have) == None
    {
      HeldIsAll();
      hide HoldOk, LensTableOk, Small;
    }

    method PutLens(here: Code)
      requires HoldOk() && LensTableOk(lencode) && here == LensNext() && here.bits + RepeatBits(here.val) <= bits
      requires mode == CODELENS && lens.Length == LENS && have < nlen + ndist <= LENS && 257 <= nlen
      modifies this`mode, this`have, this`hold, this`bits, this`consumed, lens
      ensures HoldOk() && StepCodeLens(Cfg(), old(Now()), nlen, ndist, old(have)) == Some(Now())
      ensures mode == BAD || (mode == CODELENS && have > old(have))
      ensures mode == CODELENS ==> bits == old(bits) - (here.bits + RepeatBits(here.val))
    {
      hide HoldOk, LensTableOk, Rest, Bits.Peek, Bits.Drop, Hist, Fill;
      HeldCount();
      if here.val < 16 {
        DropBits(here.bits);
        lens[have] := here.val;
        have := have + 1;
      } else {
        hide StepCodeLens;
        PutRepeat(here);
      }
    }

    /** A code that repeats a length. */
    method PutRepeat(here: Code)
      requires HoldOk() && LensTableOk(lencode) && here == LensNext() && here.bits + RepeatBits(here.val) <= bits
      requires mode == CODELENS && lens.Length == LENS && have < nlen + ndist <= LENS && 257 <= nlen && 16 <= here.val
      modifies this`mode, this`have, this`hold, this`bits, this`consumed, lens
      ensures HoldOk() && StepCodeLens(Cfg(), old(Now()), nlen, ndist, old(have)) == Some(Now())
      ensures mode == BAD || (mode == CODELENS && have > old(have))
      ensures mode == CODELENS ==> bits == old(bits) - (here.bits + RepeatBits(here.val))
    {
      HeldCount();
      RepeatStep(Cfg(), Now(), nlen, ndist, have, here);
      hide HoldOk, LensTableOk, StepCodeLens, AfterRepeat, Bits.Peek, Bits.Drop, Rest, Hist;
      TakeRepeat(here, AfterRepeat(Now(), nlen, ndist, have, here));
    }

    method TakeRepeat(here: Code, ghost r: State)
      requires HoldOk() && here.bits + RepeatBits(here.val) <= bits && bits <= Rest().n
      requires mode == CODELENS && lens.Length == LENS && have < nlen + ndist <= LENS && 257 <= nlen && 16 <= here.val
      requires r == AfterRepeat(Now(), nlen, ndist, have, here)
      modifies this`mode, this`have, this`hold, this`bits, this`consumed, lens
      ensures HoldOk() && ModeOf() == r.mode && lens[..] == r.lens && Rest() == r.bits
      ensures mode == BAD || (mode == CODELENS && have > old(have))
      ensures mode == CODELENS ==> bits == old(bits) - (here.bits + RepeatBits(here.val))
    {
      hide HoldOk, Rest, Bits.Peek, Bits.Drop, Hist, Fill;
      DropDrop(Rest(), here.bits, RepeatBits(here.val));
      DropBits(here.bits);
      if here.val == 16 && have == 0 {
        mode := BAD;
      } else {
        var len := if here.val == 16 then lens[have - 1] else 0;
        var v := TakeBits(RepeatBits(here.val));
        var copy := (if here.val < 18 then 3 else 11) + v;
        if have + copy > nlen + ndist {
          mode := BAD;
        } else {
          RepeatLens(copy, len);
        }
      }
    }

    static lemma RepeatStep(cfg: Config, a: State, nlen: nat, ndist: nat, have: nat, e: Code)
      requires |a.lens| == LENS && LensTableOk(a.lcode) && have < nlen + ndist <= LENS && nlen >= 257
      requires e == Entry(a.lcode.codes, 0, a.bits.Peek(a.lcode.root)) && e.val >= 16
      requires e.bits + RepeatBits(e.val) <= a.bits.n
      ensures StepCodeLens(cfg, a, nlen, ndist, have) == Some(AfterRepeat(a, nlen, ndist, have, e))
    {
      hide LensTableOk, Bits.Peek, Bits.Drop, Fill;
    }

    /** What a code that repeats a length makes of the state. */
    static ghost function AfterRepeat(a: State, nlen: nat, ndist: nat, have: nat, e: Code): State
      requires |a.lens| == LENS && have <= LENS && nlen + ndist <= LENS && e.bits + RepeatBits(e.val) <= a.bits.n
    {
      var more := RepeatBits(e.val);
      var copy := (if e.val < 18 then 3 else 11) + a.bits.Drop(e.bits).Peek(more);
      if e.val == 16 && have == 0 then a.(mode := Bad, bits := a.bits.Drop(e.bits))
      else if have + copy > nlen + ndist then a.(mode := Bad, bits := a.bits.Drop(e.bits + more))
      else a.(mode := CodeLens(nlen, ndist, have + copy), bits := a.bits.Drop(e.bits + more),
              lens := Fill(a.lens, have, copy, if e.val == 16 then a.lens[have - 1] else 0))
    }

    /** Stores one length `copy` times. */
    method RepeatLens(copy: nat, len: nat)
      requires have + copy <= lens.Length
      modifies this`have, lens
      ensures have == old(have) + copy && lens[..] == Fill(old(lens[..]), old(have), copy, len)
    {
      ghost var from := have;
      var n := copy;
      while n > 0
        invariant 0 <= n <= copy && have == from + copy - n
        invariant lens[..] == Fill(old(lens[..]), from, copy - n, len)
      {
        lens[have] := len;
        have := have + 1;
        n := n - 1;
      }
    }

    lemma CodeLensGives()
      requires Core() && mode == CODELENS
      ensures Step(Cfg(), Now(), Limit()) == StepCodeLens(Cfg(), Now(), nlen, ndist, have)
      ensures have <= nlen + ndist <= lens.Length == LENS && 257 <= nlen && LensTableOk(lencode)
      ensures bits < 8 || (have < nlen + ndist && bits < LensNeed())
    {
      assert Wf(Now()) && Params() && Small();
      StepCases(Cfg(), Now(), Limit());
      hide Core;
    }

    /** case CODELENS */
    method DoCodeLens() returns (more: bool)
      requires Core() && mode == CODELENS
      modifies this`mode, this`have, this`lencode, this`distcode, this`hold, this`bits, this`next, this`consumed, lens
      ensures more || Exhausted()
      ensures Core() && mode != MATCH && Advanced(old(Now()), more)
    {
      hide Core, Wf, HoldOk, Small, Remaining, Pow2, Odd, Bits.Peek, Bits.Drop, Rest, Hist, Params, Tables.Ok, Advanced, Step, Reaches, Later, Now, Limit;
      ghost var a := Now();
      Here();
      while have < nlen + ndist
        invariant Core() && mode == CODELENS && Reaches(Cfg(), a, Now(), Limit())
        decreases nlen + ndist - have
      {
        ghost var b := Now();
        more := OneCodeLen();
        Onward(a, b, more);
        if !more || mode == BAD { return; }
        Passed(a);
      }
      ghost var b := Now();
      BlockTables();
      Onward(a, b, true);
      more := true;
    }

    /** The checks and tables after all lengths are read. */
    method BlockTables()
      requires Core() && mode == CODELENS && have >= nlen + ndist
      modifies this`mode, this`lencode, this`distcode
      ensures Core() && mode != MATCH && Advanced(old(Now()), true)
    {
      hide Core, Wf, HoldOk, Small, Remaining, Pow2, Odd, Bits.Peek, Bits.Drop, Rest, Hist, Params, Tables.Ok, Advanced, Step;
      CoreGives();
      CodeLensGives();
      ghost var a := Now();
      assert lens[..][..nlen] == lens[..nlen] && lens[..][nlen..nlen + ndist] == lens[nlen..nlen + ndist];
      if lens[256] == 0 {
        mode := BAD;
      } else {
        match tables.lens(lens[..nlen]) {
          case None =>
            mode := BAD;
          case Some(l) =>
            lencode := l;
            match tables.dists(lens[nlen..nlen + ndist]) {
              case None =>
                mode := BAD;
              case Some(d) =>
                distcode := d;
                mode := LEN;
            }
        }
      }
      Stepped(a);
    }

    /** case LEN, near the end of the input or the output */
    method SlowLen() returns (more: bool)
      requires Core() && mode == LEN
      modifies this`mode, this`length, this`extra, this`hold, this`bits, this`next, this`consumed
      ensures more || Exhausted()
      ensures Core() && mode != MATCH && Advanced(old(Now()), more)
    {
      hide Core, Wf, HoldOk, Small, Remaining, Pow2, Odd, Bits.Peek, Bits.Drop, Rest, Hist, Params, Tables.Ok, Advanced, Step, LengthTableOk, Decode, LengthCode, LengthMode;
      CoreGives();
      LenGives();
      ghost var a := Now();
      var here;
      more, here := DecodeSymbol(lencode);
      if more {
        LengthLeaf(lencode, a.bits);
        UseLength(here);
        Stepped(a);
      } else {
        SymbolWaits();
        Waits();
      }
    }

    method UseLength(here: Code)
      requires LengthCode(here)
      modifies this`mode, this`length, this`extra
      ensures ModeOf() == LengthMode(here) && mode in {LIT, TYPE, BAD, LENEXT}
    {
      assert Pow2(0) == 1;
      length := here.val;
      if here.op == 0 {
        mode := LIT;
      } else if HasBit(here.op, 32) {
        mode := TYPE;
      } else if HasBit(here.op, 64) {
        mode := BAD;
      } else {
        extra := here.op % 16;
        mode := LENEXT;
      }
    }

    lemma LenGives()
      requires Core() && mode == LEN
      ensures LengthTableOk(lencode) && TableOk(lencode) && Step(Cfg(), Now(), Limit()) == StepLen(Now())
      ensures bits < 8 || Decode(lencode, Bits(hold, bits)) == None
    {
      hide Decode, StepLen;
      assert tables.Ok() && Wf(Now()) && Small();
      StepCases(Cfg(), Now(), Limit());
      hide Core;
    }

    /** What does not decode with all the input at hand is held in full. */
    lemma SymbolWaits()
      requires HoldOk() && next == |input|
      requires (mode == LEN && TableOk(lencode) && Decode(lencode, Rest()) == None)
            || (mode == DIST && TableOk(distcode) && Decode(distcode, Rest()) == None)
      ensures Small()
    {
      HeldIsAll();
      hide HoldOk;
    }

    /** The extra bits of a length or distance, if it has any. */
    method ExtraBits(n: nat) returns (ok: bool, v: nat)
      requires HoldOk() && (bits < 8 || bits < n) && n <= 13
      modifies this`hold, this`bits, this`next, this`consumed
      ensures HoldOk() && (if ok then bits < 8 && n <= old(Rest()).n else bits < n && next == |input|)
      ensures ok ==> v == old(Rest()).Peek(n) && Rest() == old(Rest()).Drop(n)
      ensures !ok ==> consumed == old(consumed)
    {
      hide HoldOk, Rest, Bits.Peek, Bits.Drop;
      ok, v := true, 0;
      NoBits(Rest());
      if n != 0 {
        ok := NeedBits(n);
        HeldCount();
        if ok {
          v := TakeBits(n);
        }
      } else {
        HeldCount();
      }
    }

    /** case LENEXT */
    method DoLenExt() returns (more: bool)
      requires Core() && mode == LENEXT
      modifies this`mode, this`length, this`hold, this`bits, this`next, this`consumed
      ensures more || Exhausted()
      ensures Core() && mode != MATCH && Advanced(old(Now()), more)
    {
      hide Core, Wf, HoldOk, Small, Remaining, Pow2, Odd, Bits.Peek, Bits.Drop, Rest, Hist, Params, Tables.Ok, Advanced, Step;
      CoreGives();
      ExtraGives();
      ghost var a := Now();
      var v;
      more, v := ExtraBits(extra);
      HeldCount();
      if more {
        length := length + v;
        mode := DIST;
        Stepped(a);
      } else {
        SmallEnough();
        Waits();
      }
    }

    lemma NoBits(b: Bits)
      ensures b.Peek(0) == 0 && b.Drop(0) == b
    {
    }

    lemma ExtraGives()
      requires Core() && mode == LENEXT
      ensures extra <= 5
      ensures Step(Cfg(), Now(), Limit())
           == if Rest().n < extra then None
              else Some(Now().(mode := Dist(length + Rest().Peek(extra)), bits := Rest().Drop(extra)))
    {
      assert Wf(Now());
      hide Core, LengthTableOk, DistanceTableOk, Tables.Ok, Bits.Peek, Bits.Drop, Rest;
    }

    /** case DIST */
    method DoDist() returns (more: bool)
      requires Core() && mode == DIST
      modifies this`mode, this`offset, this`extra, this`hold, this`bits, this`next, this`consumed
      ensures more || Exhausted()
      ensures Core() && mode != MATCH && Advanced(old(Now()), more)
    {
      hide Core, Wf, HoldOk, Small, Remaining, Pow2, Odd, Bits.Peek, Bits.Drop, Rest, Hist, Params, Tables.Ok, Advanced, Step, DistanceTableOk, Decode, DistanceCode, DistanceMode;
      CoreGives();
      DistGives();
      ghost var a := Now();
      var here;
      more, here := DecodeSymbol(distcode);
      if more {
        DistanceLeaf(distcode, a.bits);
        UseDistance(here);
        Stepped(a);
      } else {
        SymbolWaits();
        Waits();
      }
    }

    method UseDistance(here: Code)
      requires DistanceCode(here) && mode == DIST
      modifies this`mode, this`offset, this`extra
      ensures ModeOf() == DistanceMode(length, here) && mode in {BAD, DISTEXT}
    {
      assert Pow2(0) == 1;
      if HasBit(here.op, 64) {
        mode := BAD;
      } else {
        offset := here.val;
        extra := here.op % 16;
        mode := DISTEXT;
      }
    }

    lemma DistGives()
      requires Core() && mode == DIST
      ensures DistanceTableOk(distcode) && TableOk(distcode) && Step(Cfg(), Now(), Limit()) == StepDist(Now(), length)
      ensures bits < 8 || Decode(distcode, Bits(hold, bits)) == None
    {
      hide Decode, StepDist;
      assert tables.Ok() && Wf(Now()) && Small();
      StepCases(Cfg(), Now(), Limit());
      hide Core;
    }

    /** case DISTEXT: the distance is known.  The program checks it only once
        it copies, and only against what was written so far; the machine stops
        at a distance beyond the window size. */
    method DoDistExt() returns (more: bool)
      requires Core() && mode == DISTEXT
      modifies this`mode, this`offset, this`hold, this`bits, this`next, this`consumed
      ensures more || Exhausted()
      ensures Core()
      ensures if more then mode == MATCH && Later(old(Now()), Now(), Limit()) else mode == DISTEXT
      ensures more && offset > window.Length ==> Reaches(Cfg(), old(Now()), Now().(mode := TooFar(length, offset)), Limit())
      ensures !more || offset <= window.Length ==> Advanced(old(Now()), more)
    {
      hide Core, Wf, HoldOk, Small, Remaining, Pow2, Odd, Bits.Peek, Bits.Drop, Rest, Hist, Params, Tables.Ok, Advanced, Step, Reaches, Later;
      CoreGives();
      DistExtGives();
      ghost var a := Now();
      var v;
      more, v := ExtraBits(extra);
      HeldCount();
      if more {
        offset := offset + v;
        mode := MATCH;
        SteppedExt(a);
      } else {
        SmallExt();
        Waits();
      }
    }

    lemma DistExtGives()
      requires Core() && mode == DISTEXT
      ensures (bits < 8 || bits < extra) && extra <= 13
      ensures Rest().n < extra ==> Step(Cfg(), Now(), Limit()) == None
    {
      assert Wf(Now());
      hide Core, LengthTableOk, DistanceTableOk, Tables.Ok, Bits.Peek, Bits.Drop, Rest;
    }

    lemma SmallExt()
      requires mode == DISTEXT && bits < extra
      ensures Small()
    {
    }

    lemma SteppedExt(a: State)
      requires Params() && Wf(a) && HoldOk() && mode == MATCH && bits < 8
      requires a.mode.DistExt? && a.mode.extra <= a.bits.n && Now() == DistanceKnown(a)
      ensures Core() && Later(a, Now(), Limit())
      ensures if offset > window.Length then Reaches(Cfg(), a, Now().(mode := TooFar(length, offset)), Limit()) else Advanced(a, true)
    {
      hide Wf, HoldOk, DistanceKnown, Step, Reaches, Later;
      DistanceKnownWf(Cfg(), a, Limit());
      StepReaches(Cfg(), a, WithinWindow(Cfg(), Now()), Limit());
    }

    // ---- the states that write ----

    ghost predicate Io()
      reads this`put, this`left, this`outBuf
    {
      put + left <= outBuf.Length && outBuf != window
    }

    lemma HistLength()
      requires Io()
      ensures |Hist()| == |before| + put && Limit() == |Hist()| + left
      ensures Hist() == before + outBuf[..put]
    {
    }

    /** case LIT */
    method DoLit() returns (more: bool)
      requires Core() && Io() && mode == LIT
      modifies this`mode, this`put, this`left, outBuf
      ensures more || Exhausted()
      ensures Core() && Io() && mode != MATCH && Advanced(old(Now()), more)
      ensures put + left == old(put) + old(left)
    {
      hide Core, Wf, HoldOk, Small, Remaining, Pow2, Odd, Bits.Peek, Bits.Drop, Rest, Hist, Params, Tables.Ok, Advanced, Step;
      CoreGives();
      LitGives();
      HistLength();
      ghost var a := Now();
      if left == 0 {
        Waits();
        return false;
      }
      PutByte(length % 256);
      HistLength();
      mode := LEN;
      Stepped(a);
      more := true;
    }

    /** Writes one byte of output. */
    method PutByte(c: byte)
      requires Io() && left > 0
      modifies this`put, this`left, outBuf
      ensures Io() && put == old(put) + 1 && left == old(left) - 1
      ensures Hist() == old(Hist()) + [c]
    {
      outBuf[put] := c;
      put := put + 1;
      left := left - 1;
      assert outBuf[..put] == outBuf[..put - 1] + [c];
    }

    lemma LitGives()
      requires Core() && mode == LIT
      ensures Step(Cfg(), Now(), Limit())
           == if |Now().out| >= Limit() then None
              else Some(Now().(mode := Len, out := Now().out + [length % 256]))
    {
      hide LengthTableOk, DistanceTableOk, LensTableOk, HoldOk, Small, Rest, Hist;
      assert tables.Ok() && Wf(Now());
      hide Core;
    }

    /** case COPY */
    method DoCopy() returns (more: bool)
      requires Core() && Io() && mode == COPY
      modifies this`mode, this`length, this`next, this`consumed, this`put, this`left, outBuf
      ensures more || Exhausted()
      ensures Core() && Io() && mode != MATCH && Advanced(old(Now()), more)
      ensures put + left == old(put) + old(left)
    {
      hide Core, Wf, HoldOk, Small, Remaining, Pow2, Odd, Bits.Peek, Bits.Drop, Rest, Hist, Params, Tables.Ok, Advanced, Step;
      CoreGives();
      CopyGives();
      HistLength();
      ghost var a := Now();
      if length == 0 {
        mode := TYPE;
        Stepped(a);
        return true;
      }
      var copy := length;
      if copy > |input| - next { copy := |input| - next; }
      if copy > left { copy := left; }
      if copy == 0 {
        HeldCount();
        Waits();
        return false;
      }
      CopyStored(copy);
      HistLength();
      SteppedCopy(a, copy);
      more := true;
    }

    lemma CopyGives()
      requires Core() && mode == COPY
      ensures Step(Cfg(), Now(), Limit()) == StepCopy(Now(), length, Limit()) && bits == 0 && next <= |input|
    {
      assert next <= |input|;
      hide StepCopy, Step, LengthTableOk, DistanceTableOk, LensTableOk, HoldOk, Rest, Hist;
      assert tables.Ok() && Wf(Now()) && Small();
      StepCases(Cfg(), Now(), Limit());
      hide Core;
    }

    /** zmemcpy(put, next, copy) */
    method CopyStored(copy: nat)
      requires HoldOk() && Io() && mode == COPY && bits == 0 && copy <= length && copy <= |input| - next && copy <= left
      modifies this`length, this`next, this`consumed, this`put, this`left, outBuf
      ensures HoldOk() && Io() && copy <= Pulled() <= |fed|
      ensures old(Rest()) == Remaining(fed, 8 * (Pulled() - copy))
      ensures Now() == AfterStored(old(Now()), fed, Pulled() - copy, copy)
      ensures left == old(left) - copy && put == old(put) + copy
    {
      hide HoldOk, Remaining, Pow2, Bits.Peek, Odd;
      StoredInput(copy);
      ghost var from := Pulled();
      Memcpy(copy);
      put := put + copy;
      left := left - copy;
      length := length - copy;
      SkipBytes(copy);
      assert Hist() == old(Hist()) + fed[from..from + copy];
    }

    lemma StoredInput(copy: nat)
      requires HoldOk() && copy <= |input| - next && bits == 0
      ensures 0 <= Pulled() && Pulled() + copy <= |fed| && input[next..next + copy] == fed[Pulled()..Pulled() + copy]
      ensures Rest() == Remaining(fed, 8 * Pulled())
    {
      hide Remaining, Pow2, Bits.Peek;
      SameBytes(fed, |fed| - |input|, next, next + copy);
    }

    /** Whole bytes taken from the input, with none held. */
    method SkipBytes(copy: nat)
      requires HoldOk() && copy <= |input| - next && bits == 0
      modifies this`next, this`consumed
      ensures HoldOk() && next == old(next) + copy && Rest() == Remaining(fed, 8 * Pulled()) && Pulled() <= |fed|
    {
      hide Remaining, Pow2, Bits.Peek;
      NoBits(Rest());
      next := next + copy;
      consumed := consumed + 8 * copy;
      NoBits(Rest());
    }

    static lemma SameBytes(s: seq<byte>, k: nat, a: nat, b: nat)
      requires k <= |s| && a <= b <= |s| - k
      ensures s[k..][a..b] == s[k + a..k + b]
    {
      var l, r := s[k..][a..b], s[k + a..k + b];
      assert forall i :: 0 <= i < b - a ==> l[i] == r[i];
    }

    method Memcpy(copy: nat)
      requires next + copy <= |input| && put + copy <= outBuf.Length
      modifies outBuf
      ensures outBuf[..put + copy] == old(outBuf[..put]) + input[next..next + copy]
    {
      forall k | 0 <= k < copy {
        outBuf[put + k] := input[next + k];
      }
    }

    lemma SteppedCopy(a: State, copy: nat)
      requires Params() && Wf(a) && HoldOk() && mode == COPY && bits == 0
      requires a.mode.Copy? && 0 < copy <= a.mode.length
      requires copy <= Pulled() <= |fed| && a.bits == Remaining(fed, 8 * (Pulled() - copy))
      requires Now() == AfterStored(a, fed, Pulled() - copy, copy) && |Now().out| <= Limit()
      ensures Core() && Advanced(a, true)
    {
      assert a.bits.n == 8 * |fed| - 8 * (Pulled() - copy) && Rest().n == 8 * |fed| - 8 * Pulled();
      hide Wf, HoldOk, Step, Run, Remaining;
      StoredBytes(Cfg(), a, Limit(), fed, Pulled() - copy, copy);
    }

    // ---- copying matches ----

    /** Copies n bytes to the output, one after the other. */
    method CopyRun(src: array<byte>, from: nat, n: nat)
      requires 1 <= n && from + n <= src.Length && put + n <= outBuf.Length && (src == outBuf ==> from < put)
      modifies this`put, outBuf
      ensures put == old(put) + n && outBuf[..old(put)] == old(outBuf[..put])
      ensures forall k :: old(put) <= k < put ==> outBuf[k] == src[k - (old(put) - from)]
    {
      ghost var at := put;
      ghost var was := outBuf[..put];
      var i := from;
      while i < from + n
        invariant from <= i <= from + n && put == at + (i - from) && outBuf[..at] == was
        invariant forall k :: at <= k < put ==> outBuf[k] == src[k - (at - from)]
      {
        outBuf[put] := src[i];
        put := put + 1;
        i := i + 1;
      }
    }

    ghost predicate Written(at: nat, n: nat, dist: nat)
      reads this`before, this`put, this`outBuf, outBuf
    {
      put == at + n && Copied(before, outBuf[..], at, n, dist)
    }

    /** A run of n bytes from the window, starting `dist` back in the history. */
    method CopyWindow(from: nat, n: nat, dist: nat)
      requires outBuf != window && WindowHolds() && 1 <= n && put + n <= outBuf.Length
      requires put < dist && dist - put <= whave && from == Index(wsize, wnext, dist - put)
      requires n <= if dist - put <= wnext then dist - put else dist - put - wnext
      modifies this`put, outBuf
      ensures Written(old(put), n, dist) && outBuf[..old(put)] == old(outBuf[..put])
    {
      CopyRun(window, from, n);
      WindowRun(window[..], wsize, whave, wnext, before, outBuf[..], old(put), n, dist);
    }

    /** A run of n bytes from the output of this call. */
    method CopyOutput(n: nat, dist: nat)
      requires 1 <= n && put + n <= outBuf.Length && 1 <= dist <= put
      modifies this`put, outBuf
      ensures Written(old(put), n, dist) && outBuf[..old(put)] == old(outBuf[..put])
    {
      CopyRun(outBuf, put - dist, n);
      OutputRun(before, outBuf[..], old(put), n, dist);
    }

    /** case MATCH */
    method DoMatch() returns (more: bool)
      requires Core() && Io() && WindowHolds() && mode == MATCH
      modifies this`mode, this`length, this`put, this`left, outBuf
      ensures more || Exhausted()
      ensures Core() && Io()
      ensures put + left == old(put) + old(left)
      ensures more ==> Later(old(Now()), Now(), Limit())
      ensures !more || offset <= window.Length ==> Advanced(old(Now()), more)
    {
      hide Core, Wf, HoldOk, Small, Remaining, Pow2, Odd, Bits.Peek, Bits.Drop, Rest, Hist, Params, Tables.Ok, Advanced, Step, WindowHolds, CopyBack, Later, Reaches;
      if left == 0 {
        CoreGives();
        MatchGives();
        HistLength();
        Waits();
        return false;
      }
      MatchTurn();
      more := true;
    }

    /** One turn of case MATCH with output space left. */
    method MatchTurn()
      requires Core() && Io() && WindowHolds() && mode == MATCH && left > 0
      modifies this`mode, this`length, this`put, this`left, outBuf
      ensures Core() && Io()
      ensures put + left == old(put) + old(left)
      ensures Later(old(Now()), Now(), Limit())
      ensures offset <= window.Length ==> Advanced(old(Now()), true)
    {
      hide Core, Wf, HoldOk, Small, Remaining, Pow2, Odd, Bits.Peek, Bits.Drop, Rest, Hist, Params, Tables.Ok, Advanced, Step, WindowHolds, CopyBack, Later, Reaches, AfterBytes;
      CoreGives();
      MatchGives();
      HistLength();
      ghost var a := Now();
      var copy := CopyMatch();
      if copy == 0 {
        mode := BAD;
        SteppedBad(a);
        return;
      }
      CountMatch(copy);
      CountedIs(a, copy);
      HistLength();
      SteppedMatch(a, copy);
    }

    lemma CountedIs(a: State, n: nat)
      requires a.mode.MatchCopy? && 1 <= n <= a.mode.length && 1 <= a.mode.offset <= |a.out|
      requires last == a.last && lencode == a.lcode && distcode == a.dcode && lens[..] == a.lens && Rest() == a.bits
      requires Hist() == CopyBack(a.out, a.mode.offset, n)
      requires ModeOf() == if n == a.mode.length then Len else MatchCopy(a.mode.length - n, a.mode.offset)
      ensures Now() == AfterBytes(a, n)
    {
      hide ModeOf, Rest, Hist, CopyBack;
    }

    method CountMatch(copy: nat)
      requires mode == MATCH && 1 <= copy <= length && copy <= left
      modifies this`mode, this`length, this`left
      ensures left == old(left) - copy && mode in {LEN, MATCH}
      ensures ModeOf() == if copy == old(length) then Len else MatchCopy(old(length) - copy, offset)
    {
      left := left - copy;
      length := length - copy;
      if length == 0 { mode := LEN; }
    }

    /** From the window or from the output; 0 for a distance too far back. */
    method CopyMatch() returns (copy: nat)
      requires Io() && WindowHolds() && left > 0 && length > 0 && offset > 0
      modifies this`put, outBuf
      ensures copy == 0 <==> Rejects(|before| + old(put), old(put), window.Length, offset)
      ensures copy == 0 ==> put == old(put) && Hist() == old(Hist())
      ensures copy > 0 ==> copy <= length && copy <= left && put == old(put) + copy
      ensures copy > 0 ==> offset <= |old(Hist())| && Hist() == CopyBack(old(Hist()), offset, copy)
    {
      WindowBound(offset);
      WindowReach();
      HistLength();
      hide WindowHolds, CopyBack, Hist, Written;
      ghost var h := Hist();
      if offset > put {
        copy := offset - put;
        if copy > whave { return 0; }
        var from;
        if copy > wnext {
          copy := copy - wnext;
          from := wsize - copy;
        } else {
          from := wnext - copy;
        }
        if copy > length { copy := length; }
        if copy > left { copy := left; }
        CopyWindow(from, copy, offset);
      } else {
        copy := length;
        if copy > left { copy := left; }
        CopyOutput(copy, offset);
      }
      WrittenEnd(old(put), copy, offset);
      Repeated(h, old(put), copy, offset);
    }

    lemma WrittenEnd(at: nat, n: nat, dist: nat)
      requires Written(at, n, dist)
      ensures put == at + n <= outBuf.Length
    {
      assert put == at + n <= outBuf.Length;
      hide Written;
    }

    /** What was written continues the history h as one LZ77 copy. */
    lemma Repeated(h: seq<byte>, at: nat, n: nat, dist: nat)
      requires Written(at, n, dist) && at <= outBuf.Length && h == before + outBuf[..at]
      ensures 1 <= dist <= |h| && Hist() == CopyBack(h, dist, n)
    {
      CopiedIsCopyBack(before, outBuf[..], outBuf[..], at, n, dist);
      assert outBuf[..][..at] == outBuf[..at];
      assert outBuf[..][..at + n] == outBuf[..put];
      hide Written;
    }

    lemma MatchGives()
      requires Core() && mode == MATCH
      ensures Step(Cfg(), Now(), Limit()) == StepMatch(Now(), length, offset, Limit())
      ensures 1 <= length && 1 <= offset && bits < 8
    {
      hide StepMatch, Step, LengthTableOk, DistanceTableOk, LensTableOk, HoldOk, Rest, Hist;
      assert tables.Ok() && Wf(Now()) && Small();
      StepCases(Cfg(), Now(), Limit());
      hide Core;
    }

    /** How far back the window reaches; within the window size that is all the history there is. */
    lemma WindowReach()
      requires WindowHolds()
      ensures wnext <= whave <= wsize && whave <= |before| && (whave != 0 ==> wnext < wsize == window.Length)
    {
      assert wnext <= whave <= wsize && whave <= |before| && (whave != 0 ==> wnext < wsize == window.Length);
      hide WindowHolds;
    }

    lemma SteppedBad(a: State)
      requires Params() && Wf(a) && HoldOk() && mode == BAD && a.mode.MatchCopy? && Now() == a.(mode := Bad)
      requires Step(Cfg(), a, Limit()) == StepMatch(a, a.mode.length, a.mode.offset, Limit()) && |a.out| < Limit()
      ensures Core() && Later(a, Now(), Limit())
      ensures a.mode.offset > |a.out| ==> Advanced(a, true)
    {
      hide HoldOk, Step, Tables.Ok, Reaches;
      if a.mode.offset > |a.out| { StepReaches(Cfg(), a, Now(), Limit()); }
    }

    lemma SteppedMatch(a: State, n: nat)
      requires Params() && Wf(a) && HoldOk() && bits < 8 && mode != COPY
      requires a.mode.MatchCopy? && 1 <= n <= a.mode.length && 1 <= a.mode.offset <= |a.out|
      requires Now() == AfterBytes(a, n) && |Now().out| <= Limit()
      ensures Core() && Later(a, Now(), Limit()) && Advanced(a, true)
    {
      SmallEnough();
      assert |Now().out| == |a.out| + n && Now().bits == a.bits;
      hide Wf, HoldOk, Step, Run, AfterBytes, Small;
      MatchBytes(Cfg(), a, Limit(), n);
    }

    // ---- inffast.c: the copy ----

    /** The copy loop unrolled three times. */
    method CopyByThrees(src: array<byte>, from: nat, n: nat)
      requires 1 <= n && from + n <= src.Length && put + n <= outBuf.Length && (src == outBuf ==> from < put)
      modifies this`put, outBuf
      ensures put == old(put) + n && outBuf[..old(put)] == old(outBuf[..put])
      ensures forall k :: old(put) <= k < put ==> outBuf[k] == src[k - (old(put) - from)]
    {
      ghost var at := put;
      ghost var was := outBuf[..put];
      var i, len := from, n;
      while len > 2
        invariant from <= i && i + len == from + n && put == at + (i - from)
        invariant forall k :: 0 <= k < at ==> outBuf[k] == was[k]
        invariant forall k :: at <= k < put ==> outBuf[k] == src[k - (at - from)]
      {
        PupThree(src, i, at, from);
        i := i + 3;
        len := len - 3;
      }
      if len != 0 {
        Pup(src, i, at, from);
        if len > 1 {
          Pup(src, i + 1, at, from);
        }
      }
      assert outBuf[..at] == was;
    }

    method PupThree(src: array<byte>, i: nat, ghost at: nat, ghost from: nat)
      requires i + 3 <= src.Length && put + 3 <= outBuf.Length && (src == outBuf ==> from < at)
      requires at <= put && i == put - (at - from)
      requires forall k :: at <= k < put ==> outBuf[k] == src[k - (at - from)]
      modifies this`put, outBuf
      ensures put == old(put) + 3 && forall k :: 0 <= k < old(put) ==> outBuf[k] == old(outBuf[k])
      ensures forall k :: at <= k < put ==> outBuf[k] == src[k - (at - from)]
    {
      Pup(src, i, at, from);
      Pup(src, i + 1, at, from);
      Pup(src, i + 2, at, from);
    }

    /** Copies one byte, inside a run that copies src[from..] to the output from `at` on. */
    method Pup(src: array<byte>, i: nat, ghost at: nat, ghost from: nat)
      requires i < src.Length && put < outBuf.Length && (src == outBuf ==> from < at)
      requires at <= put && i == put - (at - from)
      requires forall k :: at <= k < put ==> outBuf[k] == src[k - (at - from)]
      modifies this`put, outBuf
      ensures put == old(put) + 1 && forall k :: 0 <= k < old(put) ==> outBuf[k] == old(outBuf[k])
      ensures forall k :: at <= k < put ==> outBuf[k] == src[k - (at - from)]
    {
      outBuf[put] := src[i];
      put := put + 1;
    }

    /** Where len more bytes, `dist` back, come from once `at` bytes of output are there. */
    ghost predicate Source(src: array<byte>, from: nat, at: nat, len: nat, dist: nat)
      reads this`outBuf, this`wsize, this`whave, this`wnext
    {
      if src == outBuf then 1 <= dist <= at && from == at - dist
      else
        && src == window && at < dist && dist - at <= whave && from == Index(wsize, wnext, dist - at)
        && len <= if dist - at <= wnext then dist - at else dist - at - wnext
    }

    lemma LastRun(src: array<byte>, from: nat, at: nat, n: nat, dist: nat)
      requires outBuf != window && WindowHolds() && Source(src, from, at, n, dist)
      requires at + n <= outBuf.Length && from + n <= src.Length
      requires forall k :: at <= k < at + n ==> outBuf[k] == src[k - (at - from)]
      ensures Copied(before, outBuf[..], at, n, dist)
    {
      if src == outBuf {
        OutputRun(before, outBuf[..], at, n, dist);
      } else {
        WindowRun(window[..], wsize, whave, wnext, before, outBuf[..], at, n, dist);
      }
      hide WindowHolds, Source;
    }

    lemma SourceFits(src: array<byte>, from: nat, at: nat, n: nat, dist: nat)
      requires outBuf != window && WindowHolds() && Source(src, from, at, n, dist) && at + n <= outBuf.Length
      ensures from + n <= src.Length && (src == outBuf ==> from < at)
    {
      WindowReach();
      assert from + n <= src.Length && (src == outBuf ==> from < at);
      hide WindowHolds, Source;
    }

    /** The three window cases: copies what must come from the window before
        the last stretch and says where that one starts. */
    method FastFrom(len: nat, dist: nat) returns (src: array<byte>, from: nat, rest: nat)
      requires outBuf != window && WindowHolds() && put + len <= outBuf.Length && 1 <= len
      requires put < dist && dist - put <= whave
      modifies this`put, outBuf
      ensures 1 <= rest <= len && put == old(put) + (len - rest) && outBuf[..old(put)] == old(outBuf[..put])
      ensures Source(src, from, put, rest, dist)
      ensures rest < len ==> Copied(before, outBuf[..], old(put), len - rest, dist)
    {
      WindowReach();
      hide WindowHolds, Copied;
      var op := dist - put;
      src, rest := window, len;
      if wnext == 0 {
        from := wsize - op;
        if op < rest {
          rest := rest - op;
          CopyWindow(from, op, dist);
          WrittenEnd(old(put), op, dist);
          src, from := outBuf, put - dist;
        }
      } else if wnext < op {
        from := wsize + wnext - op;
        op := op - wnext;
        if op < rest {
          rest := rest - op;
          CopyWindow(from, op, dist);
          WrittenEnd(old(put), op, dist);
          from := 0;
          if wnext < rest {
            op := wnext;
            rest := rest - op;
            FromStart(len - rest - op, dist);
            src, from := outBuf, put - dist;
          }
        }
      } else {
        from := wnext - op;
        if op < rest {
          rest := rest - op;
          CopyWindow(from, op, dist);
          WrittenEnd(old(put), op, dist);
          src, from := outBuf, put - dist;
        }
      }
    }

    /** The stretch at the start of the window, after m bytes from its end. */
    method FromStart(m: nat, dist: nat)
      requires outBuf != window && WindowHolds() && 1 <= wnext && put + wnext <= outBuf.Length
      requires m <= put && put < dist && dist - put == wnext <= whave && Written(put - m, m, dist)
      modifies this`put, outBuf
      ensures Written(old(put) - m, m + wnext, dist) && outBuf[..old(put)] == old(outBuf[..put])
      ensures put == old(put) + wnext
    {
      ghost var was := outBuf[..];
      CopyWindow(0, wnext, dist);
      assert was[..old(put)] == outBuf[..][..old(put)];
      CopiedJoin(before, was, outBuf[..], old(put) - m, m, wnext, dist);
    }

    /** Copies a whole match; false for a distance too far back. */
    method FastCopy(len: nat, dist: nat) returns (ok: bool)
      requires Io() && WindowHolds() && 1 <= len <= left && 1 <= dist
      modifies this`put, outBuf
      ensures !ok <==> Rejects(|before| + old(put), old(put), window.Length, dist)
      ensures !ok ==> put == old(put) && Hist() == old(Hist())
      ensures ok ==> put == old(put) + len && dist <= |old(Hist())| && Hist() == CopyBack(old(Hist()), dist, len)
    {
      hide WindowHolds, Copied, CopyBack, Source, Hist, Written;
      WindowBound(dist);
      HistLength();
      ghost var h := Hist();
      var src, from, rest;
      if dist > put {
        if dist - put > whave { return false; }
        src, from, rest := FastFrom(len, dist);
      } else {
        src, from, rest := outBuf, put - dist, len;
        SourceIsOutput(dist, len);
      }
      ghost var at, was := put, outBuf[..];
      SourceFits(src, from, at, rest, dist);
      CopyByThrees(src, from, rest);
      LastRun(src, from, at, rest, dist);
      assert was[..at] == outBuf[..][..at];
      WholeMatch(was, old(put), at, len, dist);
      Repeated(h, old(put), len, dist);
      ok := true;
    }

    lemma SourceIsOutput(dist: nat, len: nat)
      requires 1 <= dist <= put
      ensures Source(outBuf, put - dist, put, len, dist)
    {
    }

    /** Both stretches together. */
    lemma WholeMatch(was: seq<byte>, from: nat, at: nat, len: nat, dist: nat)
      requires from <= at < from + len == put && put <= outBuf.Length
      requires from < at ==> Copied(before, was, from, at - from, dist)
      requires at <= |was| && was[..at] == outBuf[..][..at]
      requires Copied(before, outBuf[..], at, from + len - at, dist)
      ensures Written(from, len, dist)
    {
      if from < at {
        CopiedJoin(before, was, outBuf[..], from, at - from, from + len - at, dist);
      }
      hide Copied;
    }

    // ---- inffast.c: the loop ----

    /** Adds one byte to the accumulator, with no check for input. */
    method Pull()
      requires HoldOk() && next < |input| && bits <= 24
      modifies this`hold, this`bits, this`next
      ensures HoldOk() && bits == old(bits) + 8 && next == old(next) + 1
    {
      var ok := PullByte();
    }

    /** A length or distance symbol; two bytes suffice when fewer than 15 bits are held. */
    method FastSymbol(t: Table) returns (here: Code)
      requires HoldOk() && (LengthTableOk(t) || DistanceTableOk(t)) && TableOk(t) && (bits >= 15 || |input| - next >= 2)
      modifies this`hold, this`bits, this`next, this`consumed
      ensures HoldOk() && old(next) <= next <= old(next) + 2 && old(consumed) < consumed <= old(consumed) + 15
      ensures bits + (consumed - old(consumed)) == old(bits) + 8 * (next - old(next))
      ensures Decode(t, old(Rest())) == Some((here, consumed - old(consumed)))
      ensures Rest() == old(Rest()).Drop(consumed - old(consumed))
    {
      hide HoldOk, Pow2, Remaining, Rest, TableOk, Bits.Peek, Bits.Drop, LengthTableOk, DistanceTableOk, SubTableOk,
           HasBit, Decode, Code.IsLink;
      if bits < 15 {
        Pull();
        Pull();
      }
      HeldCount();
      LinkBits(t, Rest());
      DecodeLevels(t, Rest());
      here := FirstEntry(t);
      if here.op != 0 && !HasBit(here.op, 16) && !HasBit(here.op, 64) {
        var link := here;
        ghost var rest := Rest();
        DropBits(here.bits);
        LinkFits(t, link);
        here := LinkedEntry(t, link, rest);
        DropDrop(rest, link.bits, here.bits);
      }
      DropBits(here.bits);
    }

    lemma LinkFits(t: Table, link: Code)
      requires SubTableOk(t, link)
      ensures link.bits + link.op <= 15 && link.val + Pow2(link.op) <= |t.codes|
    {
      assert link.bits + link.op <= 15 && link.val + Pow2(link.op) <= |t.codes|;
      hide SubTableOk;
    }

    /** The first-level entry that the low bits of the accumulator select. */
    function FirstEntry(t: Table): (e: Code)
      requires HoldOk() && TableOk(t) && bits >= 15
      reads this`fed, this`input, this`next, this`consumed, this`hold, this`bits
      ensures e == First(t, Rest())
    {
      BitsOfIsPeek(t.root);
      Entry(t.codes, 0, BitsOf(t.root))
    }

    /** The second-level entry of a link. */
    function LinkedEntry(t: Table, link: Code, ghost rest: Bits): (e: Code)
      requires HoldOk() && TableOk(t) && SubTableOk(t, link) && link.op <= bits
      requires link.bits <= rest.n && Rest() == rest.Drop(link.bits)
      reads this`fed, this`input, this`next, this`consumed, this`hold, this`bits
      ensures e == Second(t, link, rest)
    {
      BitsOfIsPeek(link.op);
      Entry(t.codes, link.val, BitsOf(link.op))
    }

    /** Extra bits: at most two more bytes. */
    method FastExtra(n: nat) returns (v: nat)
      requires HoldOk() && n <= 16 && n <= Rest().n
      modifies this`hold, this`bits, this`next, this`consumed
      ensures HoldOk() && old(next) <= next <= old(next) + (if n <= 8 then 1 else 2) && (next == old(next) || bits < 8) && consumed == old(consumed) + n
      ensures bits + n == old(bits) + 8 * (next - old(next))
      ensures v == old(Rest()).Peek(n) && Rest() == old(Rest()).Drop(n)
    {
      HeldCount();
      hide HoldOk, Pow2, Remaining, Rest, Bits.Peek, Bits.Drop, Odd;
      if bits < n {
        Pull();
        if bits < n {
          HeldCount();
          Pull();
        }
      }
      v := TakeBits(n);
    }

    /** Now, with the mode the machine is in; the fast path keeps that in locals. */
    ghost function In(m: Mode): State
      reads this`mode, this`length, this`offset, this`extra, this`nlen, this`ndist, this`ncode, this`have,
            this`last, this`lencode, this`distcode, this`fed, this`consumed, this`before, this`put, this`outBuf,
            outBuf, lens
    {
      Now().(mode := m)
    }

    /** The rest of a length/distance pair: length extra bits, distance code,
        distance extra bits; 33 bits are enough. */
    method FastPair(code: Code) returns (ok: bool, len: nat, dist: nat)
      requires Params() && HoldOk() && Rest().n >= 33 && code.op % 16 <= 5
      requires Wf(In(LenExt(code.val, code.op % 16)))
      modifies this`hold, this`bits, this`next, this`consumed
      ensures HoldOk() && old(next) <= next <= old(next) + 5 && old(consumed) <= consumed <= old(consumed) + 33
      ensures next <= old(next) + 3 || bits < 8
      ensures bits + (consumed - old(consumed)) == old(bits) + 8 * (next - old(next))
      ensures Paired(old(In(LenExt(code.val, code.op % 16))), ok, len, dist)
    {
      hide Wf, HoldOk, Small, Remaining, Pow2, Odd, Bits.Peek, Bits.Drop, Rest, Hist, Tables.Ok, Step, Reaches,
           TableOk, LengthTableOk, DistanceTableOk, Decode, DistanceCode, HasBit;
      ghost var a := In(LenExt(code.val, code.op % 16));
      HeldCount();
      var v := FastExtra(code.op % 16);
      len := code.val + v;
      ghost var b := In(Dist(len));
      LenExtReaches(Cfg(), a, Limit());
      ReachesWf(Cfg(), a, b, Limit());
      HeldCount();
      ok, dist := FastDistance(len);
      PairedOn(a, b, ok, len, dist);
    }

    /** The pair has been read: its length and distance, or an invalid code. */
    ghost predicate Paired(a: State, ok: bool, len: nat, dist: nat)
      reads this`mode, this`length, this`offset, this`extra, this`nlen, this`ndist, this`ncode, this`have,
            this`last, this`lencode, this`distcode, this`fed, this`consumed, this`before, this`put, this`outBuf,
            this`left, outBuf, lens
    {
      && (ok ==> Wf(In(MatchCopy(len, dist))))
      && Reaches(Cfg(), a, In(if !ok then Bad else if dist > window.Length then TooFar(len, dist) else MatchCopy(len, dist)), Limit())
    }

    lemma PairedOn(a: State, b: State, ok: bool, len: nat, dist: nat)
      requires Reaches(Cfg(), a, b, Limit()) && Paired(b, ok, len, dist)
      ensures Paired(a, ok, len, dist)
    {
      hide Wf, Reaches;
      ReachesTrans(Cfg(), a, b, In(if !ok then Bad else if dist > window.Length then TooFar(len, dist) else MatchCopy(len, dist)),
                   Limit());
    }

    method FastDistance(len: nat) returns (ok: bool, dist: nat)
      requires Params() && HoldOk() && Rest().n >= 28 && Wf(In(Dist(len)))
      modifies this`hold, this`bits, this`next, this`consumed
      ensures HoldOk() && old(next) <= next <= old(next) + 4 && old(consumed) <= consumed <= old(consumed) + 28
      ensures next <= old(next) + 2 || bits < 8
      ensures bits + (consumed - old(consumed)) == old(bits) + 8 * (next - old(next))
      ensures Paired(old(In(Dist(len))), ok, len, dist)
    {
      hide Wf, HoldOk, Small, Remaining, Pow2, Odd, Bits.Peek, Bits.Drop, Rest, Hist, Tables.Ok, Step, Reaches,
           TableOk, LengthTableOk, DistanceTableOk, Decode, DistanceCode, HasBit;
      ghost var b := In(Dist(len));
      DistTable(b);
      HeldCount();
      ghost var start := consumed;
      var here := FastSymbol(distcode);
      ghost var c := In(DistanceMode(len, here));
      DistReaches(Cfg(), b, here, consumed - start, Limit());
      ReachesWf(Cfg(), b, c, Limit());
      DistanceBits(here);
      if !HasBit(here.op, 16) {
        return false, 0;
      }
      HeldCount();
      dist := FastExtraDistance(len, here);
      PairedOn(b, c, true, len, dist);
      ok := true;
    }

    /** A distance code's extra bits. */
    method FastExtraDistance(len: nat, here: Code) returns (dist: nat)
      requires Params() && HoldOk() && Rest().n >= 13 && HasBit(here.op, 16) && here.op < 64 && here.op % 16 <= 13
      requires Wf(In(DistanceMode(len, here)))
      modifies this`hold, this`bits, this`next, this`consumed
      ensures HoldOk() && old(next) <= next <= old(next) + 2 && old(consumed) <= consumed <= old(consumed) + 13
      ensures next == old(next) || bits < 8
      ensures bits + (consumed - old(consumed)) == old(bits) + 8 * (next - old(next))
      ensures Paired(old(In(DistanceMode(len, here))), true, len, dist)
    {
      hide Wf, HoldOk, Small, Remaining, Pow2, Bits.Peek, Bits.Drop, Rest, Hist, Tables.Ok, Step, Reaches, HasBit;
      ghost var c := In(DistanceMode(len, here));
      var v := FastExtra(here.op % 16);
      dist := here.val + v;
      DistExtReaches(Cfg(), c, Limit());
    }

    lemma DistTable(b: State)
      requires Wf(b) && b.mode.Dist?
      ensures DistanceTableOk(b.dcode) && TableOk(b.dcode)
    {
      assert DistanceTableOk(b.dcode);
      hide DistanceTableOk, Wf;
    }

    lemma DistanceBits(here: Code)
      requires DistanceCode(here)
      ensures if HasBit(here.op, 16) then here.op < 64 && here.op % 16 <= 13 else here.op >= 64
    {
      hide Pow2;
    }

    method FastMatch(code: Code)
      requires Params() && HoldOk() && Io() && WindowHolds() && mode == LEN && left >= 258
      requires Rest().n >= 33 && code.op % 16 <= 5 && Wf(In(LenExt(code.val, code.op % 16)))
      modifies this`mode, this`hold, this`bits, this`next, this`consumed, this`put, this`left, this`far, outBuf
      ensures HoldOk() && Io() && Wf(Now()) && mode in {LEN, BAD}
      ensures put + left == old(put) + old(left)
      ensures old(next) <= next <= old(next) + 5 && old(consumed) <= consumed <= old(consumed) + 33
      ensures (next <= old(next) + 3 || bits < 8) && old(put) <= put <= old(put) + MAX_MATCH
      ensures bits + (consumed - old(consumed)) == old(bits) + 8 * (next - old(next))
      ensures Tracks(Cfg(), old(far), old(In(LenExt(code.val, code.op % 16))), far, Now(), Limit())
    {
      hide Wf, HoldOk, Small, Remaining, Pow2, Odd, Bits.Peek, Bits.Drop, Rest, Hist, Tables.Ok, Step, Reaches,
           TableOk, LengthTableOk, DistanceTableOk, Decode, HasBit, Paired, WindowHolds, CopyBack;
      ghost var a := In(LenExt(code.val, code.op % 16));
      var ok, len, dist := FastPair(code);
      PairGives(a, ok, len, dist);
      if !ok {
        mode := BAD;
        return;
      }
      TakeMatch(a, len, dist);
    }

    /** The pair is known: note a distance beyond the window size, and copy. */
    method TakeMatch(ghost a: State, len: nat, dist: nat)
      requires Params() && Io() && WindowHolds() && mode == LEN && left >= 258
      requires Wf(In(MatchCopy(len, dist))) && 1 <= len <= 258 && 1 <= dist
      requires Reaches(Cfg(), a, In(if dist > window.Length then TooFar(len, dist) else MatchCopy(len, dist)), Limit())
      modifies this`mode, this`put, this`left, this`far, outBuf
      ensures Io() && Wf(Now()) && mode in {LEN, BAD}
      ensures put + left == old(put) + old(left) && old(put) <= put <= old(put) + MAX_MATCH
      ensures Tracks(Cfg(), old(far), a, far, Now(), Limit())
    {
      hide Wf, HoldOk, Small, Remaining, Pow2, Odd, Bits.Peek, Bits.Drop, Rest, Hist, Tables.Ok, Step, Reaches,
           TableOk, LengthTableOk, DistanceTableOk, Decode, HasBit, Paired, WindowHolds, CopyBack;
      ghost var b := In(MatchCopy(len, dist));
      if far.None? && dist > window.Length {
        far := Some(In(TooFar(len, dist)));
      }
      FinishMatch(len, dist);
      if dist <= window.Length {
        ReachesTrans(Cfg(), a, b, Now(), Limit());
      }
    }

    method FinishMatch(len: nat, dist: nat)
      requires Params() && Io() && WindowHolds() && mode == LEN && left >= 258
      requires Wf(In(MatchCopy(len, dist))) && 1 <= len <= 258 && 1 <= dist
      modifies this`mode, this`put, this`left, outBuf
      ensures Io() && Wf(Now()) && mode in {LEN, BAD}
      ensures put + left == old(put) + old(left) && old(put) <= put <= old(put) + MAX_MATCH
      ensures dist <= window.Length ==> Reaches(Cfg(), old(In(MatchCopy(len, dist))), Now(), Limit())
    {
      hide Wf, HoldOk, Small, Remaining, Pow2, Odd, Bits.Peek, Bits.Drop, Rest, Hist, Tables.Ok, Step, Reaches,
           TableOk, LengthTableOk, DistanceTableOk, Decode, HasBit, Paired, WindowHolds, CopyBack;
      HistLength();
      WindowBound(dist);
      ghost var b := In(MatchCopy(len, dist));
      var copied := FastCopy(len, dist);
      if copied {
        left := left - len;
        HistLength();
        MatchReaches(Cfg(), b, Limit());
        ReachesWf(Cfg(), b, Now(), Limit());
      } else {
        mode := BAD;
        BadWf(b);
        if dist <= window.Length {
          BadReaches(Cfg(), b, Limit());
        }
      }
    }

    lemma BadWf(b: State)
      requires Wf(b)
      ensures Wf(b.(mode := Bad))
    {
      assert Wf(b.(mode := Bad));
      hide Wf;
    }

    /** whave says how far back the window reaches. */
    lemma WindowBound(dist: nat)
      requires WindowHolds()
      ensures dist > put && dist - put > whave <==> Rejects(|before| + put, put, window.Length, dist)
    {
      assert dist > put && dist - put > whave <==> Rejects(|before| + put, put, window.Length, dist);
      hide WindowHolds;
    }

    lemma PairGives(a: State, ok: bool, len: nat, dist: nat)
      requires Paired(a, ok, len, dist)
      ensures ok ==> 1 <= len <= 258 && 1 <= dist && Wf(In(MatchCopy(len, dist)))
      ensures Reaches(Cfg(), a, In(if !ok then Bad else if dist > window.Length then TooFar(len, dist) else MatchCopy(len, dist)), Limit())
      ensures Wf(In(Bad))
    {
      assert ok ==> 1 <= len <= 258 && 1 <= dist && Wf(In(MatchCopy(len, dist)));
      hide Reaches;
    }

    /** One turn of the loop: a literal, a whole match, or the end of the block. */
    method FastStep()
      requires Params() && HoldOk() && Io() && WindowHolds() && Wf(Now()) && mode == LEN
      requires |input| - next >= 6 && left >= 258
      modifies this`mode, this`hold, this`bits, this`next, this`consumed, this`put, this`left, this`far, outBuf
      ensures HoldOk() && Io() && Wf(Now()) && mode in {LEN, TYPE, BAD}
      ensures put + left == old(put) + old(left)
      ensures old(next) <= next <= old(next) + 6 && consumed > old(consumed)
      ensures old(put) <= put <= old(put) + MAX_MATCH
      ensures bits + (consumed - old(consumed)) == old(bits) + 8 * (next - old(next))
      ensures old(Unfinished()) ==> consumed - old(consumed) > old(bits)
      ensures Tracks(Cfg(), old(far), old(Now()), far, Now(), Limit())
    {
      hide Wf, HoldOk, Small, Remaining, Pow2, Odd, Bits.Peek, Bits.Drop, Rest, Hist, Tables.Ok, Step, Reaches,
           TableOk, LengthTableOk, DistanceTableOk, Decode, HasBit, WindowHolds, LengthMode, LengthCode, Later, Tracks;
      ghost var a, limit, start, far0 := Now(), Limit(), consumed, far;
      HeldCount();
      LenTable();
      MoreThanHeld();
      var here := FastSymbol(lencode);
      HeldCount();
      ghost var used := consumed - start;
      LenReaches(Cfg(), a, here, used, limit);
      ghost var b := In(LengthMode(here));
      ReachesWf(Cfg(), a, b, limit);
      FastUse(here);
      TracksFrom(Cfg(), far0, a, b, far, Now(), limit);
    }

    /** The bits held do not complete a literal/length code. */
    ghost predicate Unfinished()
      reads this`lencode, this`hold, this`bits
    {
      TableOk(lencode) && Decode(lencode, Bits(hold, bits)) == None
    }

    lemma LenTable()
      requires Wf(Now()) && mode == LEN
      ensures LengthTableOk(lencode) && TableOk(lencode)
    {
      assert LengthTableOk(lencode);
      hide Wf, LengthTableOk, TableOk;
      assert Now().mode.Len?;
    }

    lemma MoreThanHeld()
      requires HoldOk() && TableOk(lencode) && Rest().n >= 15
      ensures Decode(lencode, Rest()).Some?
      ensures Unfinished() ==> Decode(lencode, Rest()).value.1 > bits
    {
      DecodeTotal(lencode, Rest());
      PulledFront();
      var used := Decode(lencode, Rest()).value.1;
      if used <= bits {
        DecodeBack(lencode, HeldUpTo(bits), Rest());
      }
      hide HoldOk, TableOk, Decode;
    }

    lemma LengthBits(here: Code)
      requires LengthCode(here)
      ensures here.op == 0 ==> here.val < 256 && LengthMode(here) == Lit(here.val)
      ensures here.op != 0 && HasBit(here.op, 16) ==> here.op % 16 <= 5 && LengthMode(here) == LenExt(here.val, here.op % 16)
      ensures here.op != 0 && !HasBit(here.op, 16) ==> HasBit(here.op, 64)
      ensures here.op != 0 && !HasBit(here.op, 16) ==> LengthMode(here) == if HasBit(here.op, 32) then Type else Bad
    {
      assert Pow2(0) == 1;
      hide Pow2;
    }

    method FastUse(here: Code)
      requires Params() && HoldOk() && Io() && WindowHolds() && mode == LEN && left >= 258 && Rest().n >= 33
      requires LengthCode(here) && Wf(In(LengthMode(here)))
      modifies this`mode, this`hold, this`bits, this`next, this`consumed, this`put, this`left, this`far, outBuf
      ensures HoldOk() && Io() && Wf(Now()) && mode in {LEN, TYPE, BAD}
      ensures put + left == old(put) + old(left)
      ensures old(next) <= next <= old(next) + 5 && old(consumed) <= consumed <= old(consumed) + 33
      ensures (next <= old(next) + 3 || bits < 8) && old(put) <= put <= old(put) + MAX_MATCH
      ensures bits + (consumed - old(consumed)) == old(bits) + 8 * (next - old(next))
      ensures Tracks(Cfg(), old(far), old(In(LengthMode(here))), far, Now(), Limit())
    {
      hide Wf, HoldOk, Small, Remaining, Pow2, Odd, Bits.Peek, Bits.Drop, Rest, Hist, Tables.Ok, Step, Reaches,
           TableOk, LengthTableOk, DistanceTableOk, Decode, HasBit, WindowHolds, LengthMode, LengthCode, Later;
      LengthBits(here);
      HistLength();
      ghost var b := In(LengthMode(here));
      if here.op == 0 {
        LitReaches(Cfg(), b, Limit());
        PutByte(here.val);
        HistLength();
        ReachesWf(Cfg(), b, Now(), Limit());
      } else if HasBit(here.op, 16) {
        FastMatch(here);
      } else if HasBit(here.op, 32) {
        mode := TYPE;
        ReachesSame(Cfg(), b, Limit());
      } else {
        mode := BAD;
        ReachesSame(Cfg(), b, Limit());
      }
    }

    /** inflate_fast(): stops for lack of 6 input bytes or 258 bytes of room, at
        the end of the block, or at an error.  Whatever was held on entry, the
        bytes returned are bytes this call pulled. */
    method InflateFast()
      requires Core() && Io() && WindowHolds() && mode == LEN && |input| - next >= 6 && left >= 258
      modifies this`mode, this`hold, this`bits, this`next, this`consumed, this`put, this`left, this`far, outBuf
      ensures Core() && Io() && put + left == old(put) + old(left) && mode in {LEN, TYPE, BAD}
      ensures bits < 8 && next >= old(next) && consumed > old(consumed)
      ensures Tracks(Cfg(), old(far), old(Now()), far, Now(), Limit())
    {
      hide Wf, HoldOk, Small, Remaining, Pow2, Odd, Bits.Peek, Bits.Drop, Rest, Hist, Tables.Ok, Step, Reaches,
           Unfinished, WindowHolds, Later, Tracks, Now, Limit, Params, Core;
      CoreGives();
      LenHeld();
      ghost var a, far0, limit, first := Now(), far, Limit(), next;
      LimitIs();
      FastStep();
      LimitIs();
      HeldCount();
      while mode == LEN && |input| - next >= 6 && left >= 258
        invariant HoldOk() && Io() && Wf(Now()) && mode in {LEN, TYPE, BAD}
        invariant put + left == old(put) + old(left) && Limit() == limit
        invariant next >= first && consumed > old(consumed) && bits < 8 * (next - first) + 8
        invariant consumed <= 8 * |fed|
        invariant Tracks(Cfg(), far0, a, far, Now(), limit)
        decreases 8 * |fed| - consumed
      {
        ghost var b, far1 := Now(), far;
        FastStep();
        LimitIs();
        HeldCount();
        TracksTrans(Cfg(), far0, a, far1, b, far, Now(), limit);
      }
      ReturnBytes();
      SmallEnough();
      CoreIs();
    }

    lemma LimitIs()
      ensures Limit() == |before| + put + left
    {
    }

    lemma CoreIs()
      requires Params() && HoldOk() && Wf(Now()) && Small()
      ensures Core()
    {
      hide Params, HoldOk, Wf, Small;
    }

    /** On entry: fewer than 8 bits, or bits that complete no code. */
    lemma LenHeld()
      requires Core() && mode == LEN
      ensures bits < 8 || Unfinished()
    {
      assert Small();
      hide Core;
    }

    /** Fewer than 8 bits are held on every entry when no literal/length code is
        longer than 8 bits (and only then can that be relied on: see
        CodeTables.CompletedWithin and FastEntry). */
    lemma EntryBits()
      requires Core() && mode == LEN
      ensures TableOk(lencode) && (CodesWithin(lencode, 8) ==> bits < 8)
    {
      CoreGives();
      LenTable();
      LenHeld();
      hide Core, TableOk, Decode, CodesWithin;
      CompletedWithin(lencode, 8);
    }

    /** When a call has used up its input, the accumulator holds all that the
        abstract machine has left. */
    lemma AllHeld()
      requires Sound() && next == |input| && far.None?
      ensures ModeOf() == Abs().mode && Bits(hold, bits) == Abs().bits
    {
      assert Abs() == Now();
      HeldIsAll();
      hide Core, InReach, WindowFits;
    }

    /** Gives whole unused bytes back to the input. */
    method ReturnBytes()
      requires HoldOk() && bits < 8 * next + 8
      modifies this`hold, this`bits, this`next
      ensures HoldOk() && bits < 8 && 8 * (old(next) - next) + bits == old(bits) && next <= old(next)
    {
      var len := Quotient(bits, 8);
      PeekPeek(Rest(), bits - 8 * len, bits);
      hide Remaining, Pow2, Bits.Peek;
      next := next - len;
      bits := bits - 8 * len;
      hold := hold % Pow2(bits);
    }

    // ---- the window ----

    /** A stream that goes bad before a window was needed never gets one. */
    ghost predicate WindowFits()
      reads this`mode, this`wsize, this`whave, this`wnext, this`before, window
    {
      (mode == BAD && wsize == 0 && whave == 0 && wnext == 0) || WindowHolds()
    }

    /** Appends the output of this call to the window. */
    method UpdateWindow()
      requires Params() && WindowHolds() && put <= outBuf.Length && outBuf != window
      modifies this`wsize, this`whave, this`wnext, window
      ensures wsize == window.Length && WindowIs(before + outBuf[..put])
    {
      hide Tables.Ok, Pow2;
      if wsize == 0 {
        wsize := window.Length;
        wnext := 0;
        whave := 0;
        assert window[0..0] + window[..0] == [];
      }
      if put >= wsize {
        forall k | 0 <= k < wsize { window[k] := outBuf[put - wsize + k]; }
        wnext := 0;
        whave := wsize;
        assert window[..] == outBuf[..put][put - wsize..];
        Replaced(outBuf[..put], wsize, before);
      } else {
        AppendWindow();
      }
    }

    /** What did not fit before the window's end goes to its start. */
    method WrapAround(ghost w: seq<byte>, copy: nat, dist: nat, ghost data: seq<byte>)
      requires wsize == window.Length && Circular(w, wsize, whave, wnext, before) && wnext + dist == wsize
      requires 0 < copy < wnext && dist + copy == put <= outBuf.Length && outBuf != window && data == outBuf[..put]
      requires window[..] == Overwrite(w, wnext, data[0..dist])
      modifies this`whave, this`wnext, window
      ensures Circular(window[..], wsize, whave, wnext, before + data)
    {
      hide Circular, Overwrite;
      Wrapped(w, wsize, whave, wnext, before, data[0..dist], data[dist..put]);
      CopyIn(0, put - copy, copy, data);
      WholeOf(data, dist);
      wnext := copy;
      whave := wsize;
    }

    method AppendWindow()
      requires wsize == window.Length && Circular(window[..], wsize, whave, wnext, before)
      requires put < wsize && put <= outBuf.Length && outBuf != window
      modifies this`whave, this`wnext, window
      ensures Circular(window[..], wsize, whave, wnext, before + outBuf[..put])
    {
      hide Circular, Overwrite;
      CircularNext(window[..], wsize, whave, wnext, before);
      ghost var w, data := window[..], outBuf[..put];
      var copy := put;
      var dist := wsize - wnext;
      if dist > copy { dist := copy; }
      CopyIn(wnext, put - copy, dist, data);
      copy := copy - dist;
      WholeOf(data, dist);
      if copy != 0 { WrapAround(w, copy, dist, data); } else { Advance(w, dist, data[0..dist]); }
    }

    static lemma WholeOf(s: seq<byte>, n: nat)
      requires n <= |s|
      ensures s == s[0..n] + s[n..|s|] && (n == |s| ==> s[0..n] == s)
    {
    }

    /** The new data did not reach the end of the window. */
    method Advance(ghost w: seq<byte>, dist: nat, ghost d: seq<byte>)
      requires wsize == window.Length && wnext < wsize && |d| == dist < wsize && wnext + dist <= wsize
      requires Circular(w, wsize, whave, wnext, before) && window[..] == Overwrite(w, wnext, d)
      modifies this`whave, this`wnext
      ensures Circular(window[..], wsize, whave, wnext, before + d)
    {
      assert whave == Min(|before|, wsize) && (whave < wsize ==> wnext == whave);
      hide Circular, Overwrite;
      Window.Advanced(w, wsize, whave, wnext, before, d);
      wnext := wnext + dist;
      if wnext == wsize { wnext := 0; }
      if whave < wsize { whave := whave + dist; }
    }

    /** Copies n bytes of the output into the window. */
    method CopyIn(at: nat, from: nat, n: nat, ghost data: seq<byte>)
      requires at + n <= window.Length && from + n <= put <= outBuf.Length && outBuf != window && data == outBuf[..put]
      modifies window
      ensures window[..] == Overwrite(old(window[..]), at, data[from..from + n]) && data == outBuf[..put]
    {
      forall k | 0 <= k < n { window[at + k] := outBuf[from + k]; }
    }

    // ---- inflate() ----

    /** Until the abstract machine stops at TooFar, every match that is being
        copied is within the window size. */
    ghost predicate InReach()
      reads this`far, this`mode, this`offset
    {
      far.None? && mode == MATCH ==> offset <= window.Length
    }

    /** What one turn of the for (;;) switch did, from program state a and far0. */
    ghost predicate Turned(far0: Option<State>, a: State, more: bool)
      reads this`mode, this`length, this`offset, this`extra, this`nlen, this`ndist, this`ncode, this`have,
            this`last, this`lencode, this`distcode, this`fed, this`consumed, this`before, this`put, this`outBuf,
            this`left, this`far, outBuf, lens
    {
      && Tracks(Cfg(), far0, a, far, Now(), Limit())
      && if more then Later(a, Now(), Limit()) else far.None? ==> Stuck(Cfg(), Now(), Limit())
    }

    lemma Turn(a: State, more: bool)
      requires Advanced(a, more)
      ensures Turned(far, a, more)
    {
      hide Later, Reaches, Step, Wf, Tables.Ok;
      ReachesWf(Cfg(), a, Now(), Limit());
      assert if more then Later(a, Now(), Limit()) else Stuck(Cfg(), Now(), Limit());
      hide Advanced;
    }

    /** One turn of the loop over the states. */
    method OneState() returns (more: bool)
      requires Core() && Io() && InReach() && mode !in {DONE, BAD} && WindowHolds()
      modifies this`mode, this`last, this`length, this`offset, this`extra, this`lencode, this`distcode,
               this`nlen, this`ndist, this`ncode, this`have, this`hold, this`bits, this`next, this`consumed,
               this`put, this`left, this`far, outBuf, lens
      ensures more || Exhausted()
      ensures Core() && Io() && InReach() && put + left == old(put) + old(left)
      ensures Turned(old(far), old(Now()), more)
      ensures |input| <= 5 ==> JustFar(old(far))
    {
      hide Wf, HoldOk, Small, Remaining, Pow2, Odd, Bits.Peek, Bits.Drop, Rest, Hist, Tables.Ok, Step, Reaches,
           WindowHolds, Later, Tracks, Now, Limit, Params, Core, Advanced, Turned;
      ghost var a := Now();
      match mode {
        case TYPE => more := DoType();
        case STORED => more := DoStored();
        case COPY => more := DoCopy();
        case TABLE => more := DoTable();
        case LENLENS => more := DoLenLens();
        case CODELENS => more := DoCodeLens();
        case LEN => more := DoLen(); return;
        case LENEXT => more := DoLenExt();
        case DIST => more := DoDist();
        case DISTEXT => more := ReachDistance(); return;
        case MATCH => more := ReachMatch(); return;
        case LIT => more := DoLit();
      }
      Turn(a, more);
    }

    /** Outside inflate_fast, a distance beyond the window size is met on the way into MATCH. */
    ghost predicate JustFar(far0: Option<State>)
      reads this`mode, this`length, this`offset, this`extra, this`nlen, this`ndist, this`ncode, this`have,
            this`last, this`lencode, this`distcode, this`fed, this`consumed, this`before, this`put, this`outBuf,
            this`far, outBuf, lens
    {
      far0.None? && far.Some? ==>
        mode == MATCH && offset > window.Length && far == Some(Now().(mode := TooFar(length, offset)))
    }

    /** case LEN */
    method DoLen() returns (more: bool)
      requires Core() && Io() && WindowHolds() && mode == LEN
      modifies this`mode, this`length, this`extra, this`hold, this`bits, this`next, this`consumed,
               this`put, this`left, this`far, outBuf
      ensures more || Exhausted()
      ensures Core() && Io() && InReach() && put + left == old(put) + old(left)
      ensures Turned(old(far), old(Now()), more)
      ensures |input| <= 5 ==> far == old(far)
    {
      hide Wf, HoldOk, Small, Remaining, Pow2, Odd, Bits.Peek, Bits.Drop, Rest, Hist, Tables.Ok, Step, Reaches,
           WindowHolds, Later, Tracks, Now, Limit, Params, Core, Advanced, Turned;
      ghost var a := Now();
      if |input| - next >= 6 && left >= 258 {
        ghost var far0 := far;
        BitsLeft();
        InflateFast();
        BitsLeft();
        FastTurn(far0, a);
        more := true;
      } else {
        more := SlowLen();
        Turn(a, more);
      }
    }

    lemma BitsLeft()
      requires Core()
      ensures Now().bits.n == 8 * |fed| - consumed
    {
      HeldCount();
      hide Core;
    }

    lemma FastTurn(far0: Option<State>, a: State)
      requires Tracks(Cfg(), far0, a, far, Now(), Limit()) && Now().bits.n < a.bits.n
      ensures Turned(far0, a, true)
    {
      hide Tracks;
    }

    method ReachDistance() returns (more: bool)
      requires Core() && mode == DISTEXT
      modifies this`mode, this`offset, this`hold, this`bits, this`next, this`consumed, this`far
      ensures more || Exhausted()
      ensures Core() && InReach() && Turned(old(far), old(Now()), more)
      ensures JustFar(old(far))
    {
      hide Wf, HoldOk, Small, Remaining, Pow2, Odd, Bits.Peek, Bits.Drop, Rest, Hist, Tables.Ok, Step, Reaches,
           WindowHolds, Later, Tracks, Now, Limit, Params, Core, Advanced, Turned;
      ghost var a, far0 := Now(), far;
      more := DoDistExt();
      if more && offset > window.Length {
        if far.None? { far := Some(Now().(mode := TooFar(length, offset))); }
        FarTurn(far0, a);
      } else {
        Turn(a, more);
      }
    }

    lemma FarTurn(far0: Option<State>, a: State)
      requires Later(a, Now(), Limit()) && (far0.Some? ==> far == far0)
      requires far0.None? ==> far.Some? && far.value.mode.TooFar? && Reaches(Cfg(), a, far.value, Limit())
      ensures Turned(far0, a, true)
    {
      hide Later, Reaches;
    }

    method ReachMatch() returns (more: bool)
      requires Core() && Io() && InReach() && WindowHolds() && mode == MATCH
      modifies this`mode, this`length, this`put, this`left, outBuf
      ensures more || Exhausted()
      ensures Core() && Io() && InReach() && put + left == old(put) + old(left)
      ensures Turned(old(far), old(Now()), more)
    {
      hide Wf, HoldOk, Small, Remaining, Pow2, Odd, Bits.Peek, Bits.Drop, Rest, Hist, Tables.Ok, Step, Reaches,
           WindowHolds, Later, Tracks, Now, Limit, Params, Core, Advanced, Turned;
      ghost var a := Now();
      more := DoMatch();
      if far.None? || !more {
        Turn(a, more);
      } else {
        FarTurn(far, a);
      }
    }

    /** Between calls. */
    ghost predicate Sound()
      reads this`mode, this`length, this`offset, this`extra, this`nlen, this`ndist, this`ncode, this`have,
            this`last, this`lencode, this`distcode, this`fed, this`consumed, this`before, this`put, this`outBuf,
            this`input, this`next, this`hold, this`bits, this`left, this`wsize, this`whave, this`wnext, this`far,
            outBuf, lens, window
    {
      && Core() && Io() && InReach() && put == 0 && left == 0
      && WindowFits()
      && (far.Some? ==> Wf(far.value) && far.value.mode.TooFar?)
    }

    /** The abstract machine this object computes. */
    ghost function Abs(): State
      reads this`mode, this`length, this`offset, this`extra, this`nlen, this`ndist, this`ncode, this`have,
            this`last, this`lencode, this`distcode, this`fed, this`consumed, this`before, this`put, this`outBuf,
            this`far, outBuf, lens
    {
      if far.Some? then far.value else Now()
    }

    /** The caller's new input goes behind what it still had, and a new output buffer comes. */
    method Begin(more: seq<byte>, output: array<byte>)
      requires Core() && put == 0 && output != window
      modifies this`input, this`next, this`fed, this`outBuf, this`put, this`left
      ensures Core() && Io() && put == 0 && left == output.Length && outBuf == output && next == 0
      ensures fed == old(fed) + more && input == old(input[next..]) + more
      ensures Now() == Feed(old(Now()), more) && Limit() == |before| + output.Length
    {
      hide Core, Params, HoldOk, Wf, Small, Remaining, Pow2, Bits.Peek, Bits.Append, Odd, Rest;
      CoreGives();
      FeedWf(Now(), more);
      Refill(more);
      outBuf := output;
      put := 0;
      left := output.Length;
      CoreIs();
    }

    method Refill(more: seq<byte>)
      requires HoldOk()
      modifies this`input, this`next, this`fed
      ensures HoldOk() && next == 0 && fed == old(fed) + more && input == old(input[next..]) + more
      ensures Rest() == old(Rest()).Append(more)
    {
      HeldCount();
      RemainingAppend(fed, consumed, more);
      PeekAppend(Rest(), more, bits);
      hide Pow2, Bits.Peek, Bits.Append, Remaining;
      input := input[next..] + more;
      next := 0;
      fed := fed + more;
    }

    /** The loop, until the machine waits or stops. */
    method RunStates()
      requires Core() && Io() && InReach() && WindowFits()
      modifies this`mode, this`last, this`length, this`offset, this`extra, this`lencode, this`distcode,
               this`nlen, this`ndist, this`ncode, this`have, this`hold, this`bits, this`next, this`consumed,
               this`put, this`left, this`far, outBuf, lens
      ensures Core() && Io() && InReach() && WindowFits()
      ensures put + left == old(put) + old(left)
      ensures Tracks(Cfg(), old(far), old(Now()), far, Now(), Limit())
      ensures far.None? ==> Stuck(Cfg(), Now(), Limit())
      ensures mode in {DONE, BAD} || Exhausted()
    {
      hide Wf, HoldOk, Small, Remaining, Pow2, Odd, Bits.Peek, Bits.Drop, Rest, Hist, Tables.Ok, Step, Reaches,
           WindowHolds, Tracks, Now, Params, Core, Advanced, InReach;
      ghost var a, far0, limit := Now(), far, Limit();
      StartsHere();
      while mode !in {DONE, BAD}
        invariant Core() && Io() && InReach() && WindowFits()
        invariant put + left == old(put) + old(left) && Limit() == limit
        invariant Tracks(Cfg(), far0, a, far, Now(), limit)
        decreases Now().bits.n, Room(Now(), limit), Rank(Now().mode)
      {
        ghost var b, far1 := Now(), far;
        var more := OneState();
        TurnGives(far1, b, more);
        TracksTrans(Cfg(), far0, a, far1, b, far, Now(), limit);
        if !more { return; }
      }
      Stopped();
    }

    lemma StartsHere()
      requires Core()
      ensures Tracks(Cfg(), far, Now(), far, Now(), Limit())
    {
      Here();
      hide Core, Reaches;
    }

    lemma TurnGives(far0: Option<State>, a: State, more: bool)
      requires Turned(far0, a, more)
      ensures Tracks(Cfg(), far0, a, far, Now(), Limit())
      ensures if more then Later(a, Now(), Limit()) else far.None? ==> Stuck(Cfg(), Now(), Limit())
    {
      hide Later, Reaches, Stuck;
      assert Tracks(Cfg(), far0, a, far, Now(), Limit());
      assert if more then Later(a, Now(), Limit()) else far.None? ==> Stuck(Cfg(), Now(), Limit());
      hide Turned;
    }

    lemma Stopped()
      requires Core() && mode in {DONE, BAD}
      ensures Stuck(Cfg(), Now(), Limit())
    {
      assert tables.Ok() && Wf(Now());
      hide Core, Wf, Tables.Ok;
    }

    /** inf_leave: the window takes over what was written, unless the stream is
        bad before a window was needed. */
    method Leave()
      requires Core() && Io() && InReach() && WindowFits()
      requires far.Some? ==> Wf(far.value) && far.value.mode.TooFar?
      modifies this`wsize, this`whave, this`wnext, this`before, this`put, this`left, window
      ensures Sound() && Now() == old(Now()) && before == old(Hist())
    {
      hide Wf, HoldOk, Small, Tables.Ok, Core, InReach, Params, Circular, Now;
      CoreGives();
      HistLength();
      if wsize != 0 || (put != 0 && mode != BAD) {
        UpdateWindow();
      }
      EndCall();
    }

    /** total_out: what was written is now output of earlier calls. */
    method EndCall()
      requires Core() && Io() && InReach()
      requires (mode == BAD && wsize == 0 && whave == 0 && wnext == 0) || WindowIs(Hist())
      requires far.Some? ==> Wf(far.value) && far.value.mode.TooFar?
      modifies this`before, this`put, this`left
      ensures Sound() && Now() == old(Now()) && before == old(Hist())
    {
      hide Wf, HoldOk, Small, Tables.Ok, Core, InReach, Params, WindowIs, ModeOf, Rest;
      CoreGives();
      HistLength();
      before := Hist();
      put := 0;
      left := 0;
      assert Hist() == before;
      CoreIs();
    }

    /** inflate(strm, Z_NO_FLUSH) with more input behind what is left of the old
        and a new output buffer.  The result is that of the abstract machine run
        on all input so far, to the length this call has room for. */
    method Inflate(more: seq<byte>, output: array<byte>) returns (ret: Ret, written: nat)
      requires Sound() && output != window
      modifies this, lens, window, output
      ensures Sound() && fed == old(fed) + more
      ensures written <= output.Length && before == old(before) + output[..written]
      ensures mode in {DONE, BAD} || next == |input| || written == output.Length
      ensures Wf(Feed(old(Abs()), more))
      ensures Abs() == Run(Cfg(), Feed(old(Abs()), more), |old(before)| + output.Length)
      ensures ret == if mode == DONE then StreamEndRet else if mode == BAD then DataErrorRet
                     else if written == 0 && |input| - next == old(|input| - next) + |more| then BufErrorRet
                     else OkRet
    {
      hide Wf, HoldOk, Hist, Tables.Ok, WindowHolds, WindowFits, Now, Params, Core, Run, Sound;
      SoundGives(more);
      RunCall(more, output);
      written := put;
      HistLength();
      Leave();
      ret := if mode == DONE then StreamEndRet else if mode == BAD then DataErrorRet
             else if written == 0 && next == 0 then BufErrorRet else OkRet;
    }

    /** A call up to inf_leave. */
    method RunCall(more: seq<byte>, output: array<byte>)
      requires Sound() && output != window
      modifies this`mode, this`last, this`length, this`offset, this`extra, this`lencode, this`distcode,
               this`nlen, this`ndist, this`ncode, this`have, this`hold, this`bits, this`next, this`consumed,
               this`put, this`left, this`far, this`input, this`fed, this`outBuf, lens, output
      ensures Core() && Io() && InReach() && WindowFits() && outBuf == output && put + left == output.Length
      ensures far.Some? ==> Wf(far.value) && far.value.mode.TooFar?
      ensures fed == old(fed) + more && |input| == old(|input| - next) + |more|
      ensures mode in {DONE, BAD} || Exhausted()
      ensures Wf(Feed(old(Abs()), more))
      ensures Abs() == Run(Cfg(), Feed(old(Abs()), more), |before| + output.Length)
    {
      hide Wf, HoldOk, Small, Remaining, Pow2, Odd, Bits.Peek, Bits.Drop, Bits.Append, Rest, Hist, Tables.Ok, Step, Reaches,
           WindowHolds, WindowFits, Tracks, Now, Params, Core, Stuck, Run, Sound;
      SoundGives(more);
      Begin(more, output);
      if far.Some? { far := Some(Feed(far.value, more)); }
      ghost var a, far0, limit := Now(), far, Limit();
      LimitIs();
      RunStates();
      LimitIs();
      TracksEnds(Cfg(), far0, a, far, Now(), limit);
    }

    /** What the next call starts from. */
    lemma CanGoOn()
      requires Sound()
      ensures Core() && put == 0 && InReach() && WindowFits() && (mode != BAD ==> WindowHolds())
    {
      hide Core, InReach;
    }

    lemma SoundGives(more: seq<byte>)
      requires Sound()
      ensures Core() && InReach() && put == 0 && WindowFits() && Cfg().tables.Ok() && next <= |input|
      ensures far.Some? ==> Wf(far.value) && far.value.mode.TooFar? && Wf(Feed(far.value, more))
      ensures Wf(Now()) && Wf(Feed(Now(), more)) && Hist() == before
    {
      assert Core();
      CoreGives();
      FeedWf(Now(), more);
      if far.Some? { FeedWf(far.value, more); }
      assert WindowFits() && InReach() && next <= |input|;
      assert Hist() == before;
      hide Sound, Core, Wf, HoldOk, WindowFits, InReach;
    }

    /** Copies the window out, oldest byte first. */
    method GetDictionary(dictionary: array<byte>) returns (dictLength: nat)
      requires Sound() && whave <= dictionary.Length && dictionary != window
      modifies dictionary
      ensures dictLength == if mode == BAD && wsize == 0 then 0
                            else if |before| < window.Length then |before| else window.Length
      ensures dictLength <= |before| && dictionary[..dictLength] == before[|before| - dictLength..]
    {
      hide Sound, Core, Io, InReach, WindowFits;
      WindowContents();
      if whave != 0 {
        CopyOut(dictionary, 0, wnext, whave - wnext);
        CopyOut(dictionary, whave - wnext, 0, wnext);
        assert dictionary[..whave] == window[wnext..whave] + window[..wnext];
      }
      dictLength := whave;
    }

    lemma WindowContents()
      requires Sound()
      ensures wnext <= whave <= window.Length && whave <= |before|
      ensures window[wnext..whave] + window[..wnext] == before[|before| - whave..]
      ensures whave == if mode == BAD && wsize == 0 then 0
                       else if |before| < window.Length then |before| else window.Length
    {
      hide Core, Io, InReach, HoldOk, Wf, Small;
      CoreGives();
      if wsize != 0 { InOrder(window[..], wsize, whave, wnext, before); }
    }

    /** Copies n bytes of the window into the dictionary. */
    method CopyOut(dictionary: array<byte>, at: nat, from: nat, n: nat)
      requires at + n <= dictionary.Length && from + n <= window.Length && dictionary != window
      modifies dictionary
      ensures dictionary[..at] == old(dictionary[..at]) && dictionary[at..at + n] == window[from..from + n]
    {
      forall k | 0 <= k < n { dictionary[at + k] := window[from + k]; }
    }

    /** inflateInit2_ with negative window bits: a raw stream. */
    constructor (t: Tables, windowBits: nat)
      requires t.Ok() && 8 <= windowBits <= 15
      ensures Sound() && fresh(this) && fresh(lens) && fresh(window) && far.None?
      ensures tables == t && window.Length == Pow2(windowBits) && fed == [] && before == []
      ensures Abs().mode.Type? && !Abs().last && Abs().bits == Bits(0, 0) && Abs().out == []
    {
      tables, wbits := t, windowBits;
      mode, last := TYPE, false;
      hold, bits := 0, 0;
      length, offset, extra := 0, 0, 0;
      lencode, distcode := t.fixedLen, t.fixedDist;
      nlen, ndist, ncode, have := 0, 0, 0, 0;
      lens := new nat[LENS];
      wsize, whave, wnext := 0, 0, 0;
      window := new byte[Pow2(windowBits)];
      input, next := [], 0;
      outBuf := new byte[0];
      put, left := 0, 0;
      fed, consumed, before, far := [], 0, [], None;
      new;
      hide *;
      WindowSizes(windowBits);
      FreshIsSound();
    }

    ghost predicate JustMade()
      reads this
    {
      && tables.Ok() && 8 <= wbits <= 15 && window.Length == Pow2(wbits) && 256 <= window.Length <= 0x8000
      && lens.Length == LENS && mode == TYPE && !last && hold == bits == consumed == 0 && fed == input == before == []
      && next == put == left == wsize == whave == wnext == 0 && far.None? && outBuf != window
    }

    lemma FreshHold()
      requires JustMade()
      ensures HoldOk() && Rest() == Bits(0, 0)
    {
      NothingFed();
      hide Remaining, Bits.Peek, Pow2, Tables.Ok;
      assert fed[|fed| - |input|..] == input;
    }

    lemma FreshWindow()
      requires JustMade()
      ensures WindowFits() && Hist() == []
    {
      hide Pow2, Tables.Ok;
    }

    lemma FreshIsSound()
      requires JustMade()
      ensures Sound() && Abs().mode.Type? && !Abs().last && Abs().bits == Bits(0, 0) && Abs().out == []
    {
      FreshHold();
      FreshWindow();
      hide HoldOk, Rest, Hist, WindowFits, Tables.Ok, LengthTableOk, DistanceTableOk, LensTableOk, TableOk, Decode;
      assert Pow2(0) == 1 && Pow2(wbits) == window.Length;
      hide Pow2;
    }

    static lemma NothingFed()
      ensures Remaining([], 0) == Bits(0, 0) && Pow2(0) == 1 && Bits(0, 0).Peek(0) == 0
    {
    }

    static lemma WindowSizes(windowBits: nat)
      requires 8 <= windowBits <= 15
      ensures 256 <= Pow2(windowBits) <= 0x8000
    {
      assert Pow2(8) == 256;
      assert Pow2(15) == 0x8000;
      Pow2Monotone(8, windowBits);
      Pow2Monotone(windowBits, 15);
    }
  }
  // ---- any sequence of calls ----

  datatype Call = Call(more: seq<byte>, room: nat)

  function GivenInput(calls: seq<Call>): seq<byte> {
    if calls == [] then [] else GivenInput(calls[..|calls| - 1]) + calls[|calls| - 1].more
  }

  function GivenRoom(calls: seq<Call>): nat {
    if calls == [] then 0 else GivenRoom(calls[..|calls| - 1]) + calls[|calls| - 1].room
  }

  /** The decoder and its abstract machine after all the calls so far. */
  ghost predicate Follows(cfg: Config, a: State, start: nat, calls: seq<Call>, ps: seq<Piece>, b: State) {
    && cfg.tables.Ok() && Wf(a)
    && AllInput(ps) == GivenInput(calls)
    && (forall i :: 0 <= i < |ps| ==> ps[i].limit <= start + GivenRoom(calls))
    && b == RunPieces(cfg, a, ps)
  }

  lemma FollowsNext(cfg: Config, a: State, start: nat, calls: seq<Call>, ps: seq<Piece>, b: State, p: Piece, room: nat)
    requires Follows(cfg, a, start, calls, ps, b) && Wf(Feed(b, p.more)) && p.limit <= start + GivenRoom(calls) + room
    ensures Follows(cfg, a, start, calls + [Call(p.more, room)], ps + [p], Run(cfg, Feed(b, p.more), p.limit))
  {
    hide Wf, Tables.Ok, Run;
    assert (ps + [p])[..|ps|] == ps;
    assert (calls + [Call(p.more, room)])[..|calls|] == calls;
  }

  /** Cutting the input and the output space into calls in any way whatever
      ends, once run on to the space of all calls together, where one call with
      all the input and all the space ends; and what has been written by then
      is the beginning of what that call writes, unless a distance beyond the
      window size has been used. */
  method Session(inf: InflateState, calls: seq<Call>) returns (out: seq<byte>)
    requires inf.Sound()
    modifies inf, inf.lens, inf.window
    ensures inf.Sound() && inf.before == old(inf.before) + out && inf.fed == old(inf.fed) + GivenInput(calls)
    ensures Wf(Feed(old(inf.Abs()), GivenInput(calls))) && Wf(inf.Abs()) && inf.tables.Ok()
    ensures var limit := |old(inf.before)| + GivenRoom(calls);
            var whole := Run(inf.Cfg(), Feed(old(inf.Abs()), GivenInput(calls)), limit);
            && Run(inf.Cfg(), inf.Abs(), limit) == whole
            && (!whole.mode.TooFar? ==> inf.far.None? && inf.before <= whole.out)
  {
    hide Wf, Tables.Ok, Run, RunPieces, Follows, InflateState.Sound, InflateState.Abs, GivenInput, GivenRoom;
    ghost var a, start := inf.Abs(), |inf.before|;
    ghost var ps: seq<Piece> := [];
    out := [];
    SessionStarts(inf);
    NoCalls(calls);
    var i := 0;
    while i < |calls|
      invariant i <= |calls| && inf.Sound() && inf.before == old(inf.before) + out
      invariant inf.fed == old(inf.fed) + GivenInput(calls[..i]) && |out| <= GivenRoom(calls[..i])
      invariant Follows(inf.Cfg(), a, start, calls[..i], ps, inf.Abs())
    {
      ghost var b, before := inf.Abs(), inf.before;
      var output := new byte[calls[i].room];
      var ret, written := inf.Inflate(calls[i].more, output);
      FollowsNext(inf.Cfg(), a, start, calls[..i], ps, b, Piece(calls[i].more, |before| + output.Length), calls[i].room);
      CallsNext(calls, i);
      ps := ps + [Piece(calls[i].more, |before| + output.Length)];
      out := out + output[..written];
      i := i + 1;
    }
    assert calls[..i] == calls;
    SessionEnds(inf, a, start, calls, ps);
  }

  lemma NoCalls(calls: seq<Call>)
    ensures calls[..0] == [] && GivenInput(calls[..0]) == [] && GivenRoom(calls[..0]) == 0
  {
  }

  lemma CallsNext(calls: seq<Call>, i: nat)
    requires i < |calls|
    ensures calls[..i + 1] == calls[..i] + [Call(calls[i].more, calls[i].room)]
    ensures GivenInput(calls[..i + 1]) == GivenInput(calls[..i]) + calls[i].more
    ensures GivenRoom(calls[..i + 1]) == GivenRoom(calls[..i]) + calls[i].room
  {
    assert calls[..i + 1][..i] == calls[..i];
  }

  lemma SessionStarts(inf: InflateState)
    requires inf.Sound()
    ensures Follows(inf.Cfg(), inf.Abs(), |inf.before|, [], [], inf.Abs())
  {
    inf.SoundGives([]);
    hide InflateState.Sound, Wf, Tables.Ok;
  }

  lemma SessionEnds(inf: InflateState, a: State, start: nat, calls: seq<Call>, ps: seq<Piece>)
    requires inf.Sound() && Follows(inf.Cfg(), a, start, calls, ps, inf.Abs())
    ensures Wf(Feed(a, GivenInput(calls))) && Wf(inf.Abs()) && inf.tables.Ok()
    ensures var limit := start + GivenRoom(calls);
            var whole := Run(inf.Cfg(), Feed(a, GivenInput(calls)), limit);
            && Run(inf.Cfg(), inf.Abs(), limit) == whole
            && (!whole.mode.TooFar? ==> inf.far.None? && inf.before <= whole.out)
  {
    hide InflateState.Sound, Wf, Tables.Ok, Run, RunPieces;
    inf.SoundGives([]);
    var limit := start + GivenRoom(calls);
    AnyCuts(inf.Cfg(), a, ps, limit);
    RunExtends(inf.Cfg(), inf.Abs(), limit);
    if inf.far.Some? { TooFarStops(inf.Cfg(), inf.Abs(), limit); }
  }

  lemma TooFarStops(cfg: Config, a: State, limit: nat)
    requires cfg.tables.Ok() && Wf(a) && a.mode.TooFar?
    ensures Run(cfg, a, limit) == a
  {
  }
}
