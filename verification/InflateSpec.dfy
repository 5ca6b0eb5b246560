/** Inflate as an abstract machine, one symbol or one byte at a time, over the
    undecoded bits and the output history.  It says what the resumable code in
    inflate.c and the fast path in inffast.c are to compute. */
module InflateSpec {
  import opened Lz77
  import opened Binary
  import opened BitSource
  import opened CodeTables

  /** The states of inflate.h for a raw stream, each with what it still needs.
      TYPE and TYPEDO differ only for Z_BLOCK and are one state here, as are
      COPY_ and COPY, LEN_ and LEN, and CHECK, LENGTH and DONE.  TooFar is no
      state of the program: the stream used a distance beyond the window. */
  datatype Mode =
    | Type
    | StoredLen
    | Copy(length: nat)
    | TableSizes
    | LenLens(nlen: nat, ndist: nat, ncode: nat, have: nat)
    | CodeLens(nlen: nat, ndist: nat, have: nat)
    | Len
    | LenExt(length: nat, extra: nat)
    | Dist(length: nat)
    | DistExt(length: nat, offset: nat, extra: nat)
    | MatchCopy(length: nat, offset: nat)
    | Lit(c: byte)
    | Done
    | Bad
    | TooFar(length: nat, offset: nat)

  /** inflate_table for the three kinds of code, and the fixed tables: a
      parameter of the machine, of which only the table contract is used. */
  datatype Tables = Tables(
    fixedLen: Table, fixedDist: Table,
    codes: seq<nat> -> Option<Table>,
    lens: seq<nat> -> Option<Table>,
    dists: seq<nat> -> Option<Table>)
  {
    ghost predicate Ok() {
      && LengthTableOk(fixedLen) && DistanceTableOk(fixedDist)
      && (forall l :: codes(l).Some? ==> LensTableOk(codes(l).value))
      && (forall l :: lens(l).Some? ==> LengthTableOk(lens(l).value))
      && (forall l :: dists(l).Some? ==> DistanceTableOk(dists(l).value))
    }
  }

  datatype Config = Config(tables: Tables, wSize: nat)

  const LENS := 320
  const ORDER: seq<nat> := [16, 17, 18, 0, 8, 7, 9, 6, 10, 5, 11, 4, 12, 3, 13, 2, 14, 1, 15]

  datatype State = State(mode: Mode, last: bool, lcode: Table, dcode: Table, lens: seq<nat>,
                         bits: Bits, out: seq<byte>)

  /** Tables are in place in the modes that use them, counters are in range. */
  ghost predicate Wf(a: State) {
    && |a.lens| == LENS
    && a.bits.u < Pow2(a.bits.n)
    && match a.mode
       case LenLens(nlen, ndist, ncode, have) => 257 <= nlen <= 286 && ndist <= 30 && have <= ncode <= 19
       case CodeLens(nlen, ndist, have) => 257 <= nlen <= 286 && ndist <= 30 && have <= nlen + ndist
                                           && LensTableOk(a.lcode)
       case Len => LengthTableOk(a.lcode) && DistanceTableOk(a.dcode)
       case LenExt(length, extra) => LengthTableOk(a.lcode) && DistanceTableOk(a.dcode)
                                     && extra <= 5 && MIN_MATCH <= length && length + Pow2(extra) - 1 <= MAX_MATCH
       case Dist(length) => LengthTableOk(a.lcode) && DistanceTableOk(a.dcode) && MIN_MATCH <= length <= MAX_MATCH
       case DistExt(length, offset, extra) =>
         LengthTableOk(a.lcode) && DistanceTableOk(a.dcode) && MIN_MATCH <= length <= MAX_MATCH
         && extra <= 13 && 1 <= offset && offset + Pow2(extra) - 1 <= 0x8000
       case MatchCopy(length, offset) =>
         LengthTableOk(a.lcode) && DistanceTableOk(a.dcode) && 1 <= length <= MAX_MATCH && 1 <= offset <= 0x8000
       case Lit(_) => LengthTableOk(a.lcode) && DistanceTableOk(a.dcode)
       case _ => true
  }

  /** The code-length lengths from `have` on are zero, in the permuted order. */
  function ClearRest(lens: seq<nat>, have: nat): (r: seq<nat>)
    requires |lens| == LENS && have <= 19
    ensures |r| == LENS
    decreases 19 - have
  {
    if have == 19 then lens else ClearRest(lens[ORDER[have] := 0], have + 1)
  }

  /** `copy` lengths from `have` on are len. */
  function Fill(lens: seq<nat>, have: nat, copy: nat, len: nat): (r: seq<nat>)
    requires have + copy <= |lens|
    ensures |r| == |lens|
  {
    lens[..have] + seq(copy, _ => len) + lens[have + copy..]
  }

  /** One step, or None when the machine waits for input, for output space
      (`limit` bounds the history) or has stopped. */
  function Step(cfg: Config, a: State, limit: nat): Option<State>
    requires cfg.tables.Ok() && Wf(a)
  {
    match a.mode
    case Type => StepType(cfg, a)
    case StoredLen => StepStored(a)
    case Copy(length) => StepCopy(a, length, limit)
    case TableSizes => StepTableSizes(a)
    case LenLens(nlen, ndist, ncode, have) => StepLenLens(cfg, a, nlen, ndist, ncode, have)
    case CodeLens(nlen, ndist, have) => StepCodeLens(cfg, a, nlen, ndist, have)
    case Len => StepLen(a)
    case LenExt(length, extra) =>
      if a.bits.n < extra then None
      else Some(a.(mode := Dist(length + a.bits.Peek(extra)), bits := a.bits.Drop(extra)))
    case Dist(length) => StepDist(a, length)
    case DistExt(length, offset, extra) =>
      if a.bits.n < extra then None
      else Some(WithinWindow(cfg, DistanceKnown(a)))
    case MatchCopy(length, offset) => StepMatch(a, length, offset, limit)
    case Lit(c) => if |a.out| >= limit then None else Some(a.(mode := Len, out := a.out + [c]))
    case Done => None
    case Bad => None
    case TooFar(_, _) => None
  }

  /** The extra bits of the distance have been read. */
  function DistanceKnown(a: State): State
    requires a.mode.DistExt? && a.mode.extra <= a.bits.n
  {
    a.(mode := MatchCopy(a.mode.length, a.mode.offset + a.bits.Peek(a.mode.extra)), bits := a.bits.Drop(a.mode.extra))
  }

  function WithinWindow(cfg: Config, a: State): State
    requires a.mode.MatchCopy?
  {
    if a.mode.offset > cfg.wSize then a.(mode := TooFar(a.mode.length, a.mode.offset)) else a
  }

  lemma DistanceKnownWf(cfg: Config, a: State, limit: nat)
    requires cfg.tables.Ok() && Wf(a) && a.mode.DistExt? && a.mode.extra <= a.bits.n
    ensures Wf(DistanceKnown(a)) && Later(a, DistanceKnown(a), limit)
    ensures Step(cfg, a, limit) == Some(WithinWindow(cfg, DistanceKnown(a)))
  {
    hide LengthTableOk, DistanceTableOk, Tables.Ok, Pow2;
    DropBound(a.bits, a.mode.extra);
  }

  /** Step, state by state. */
  lemma StepCases(cfg: Config, a: State, limit: nat)
    requires cfg.tables.Ok() && Wf(a)
    ensures a.mode.Type? ==> Step(cfg, a, limit) == StepType(cfg, a)
    ensures a.mode.StoredLen? ==> Step(cfg, a, limit) == StepStored(a)
    ensures a.mode.TableSizes? ==> Step(cfg, a, limit) == StepTableSizes(a)
    ensures a.mode.LenLens? ==>
              Step(cfg, a, limit) == StepLenLens(cfg, a, a.mode.nlen, a.mode.ndist, a.mode.ncode, a.mode.have)
    ensures a.mode.CodeLens? ==> Step(cfg, a, limit) == StepCodeLens(cfg, a, a.mode.nlen, a.mode.ndist, a.mode.have)
    ensures a.mode.Len? ==> Step(cfg, a, limit) == StepLen(a)
    ensures a.mode.Dist? ==> Step(cfg, a, limit) == StepDist(a, a.mode.length)
    ensures a.mode.Copy? ==> Step(cfg, a, limit) == StepCopy(a, a.mode.length, limit)
    ensures a.mode.MatchCopy? ==> Step(cfg, a, limit) == StepMatch(a, a.mode.length, a.mode.offset, limit)
  {
    hide StepType, StepStored, StepTableSizes, StepLenLens, StepCodeLens, StepLen, StepDist, StepCopy, StepMatch,
         LengthTableOk, DistanceTableOk, LensTableOk, Tables.Ok, Pow2;
  }

  function StepType(cfg: Config, a: State): Option<State> {
    if a.last then Some(a.(mode := Done, bits := a.bits.Drop(Odd(a.bits.n))))
    else if a.bits.n < 3 then None
    else
      Some(BlockOfKind(cfg, a.(last := a.bits.Peek(1) == 1, bits := a.bits.Drop(3)), a.bits.Drop(1).Peek(2)))
  }

  function BlockOfKind(cfg: Config, a: State, kind: nat): State {
    if kind == 0 then a.(mode := StoredLen)
    else if kind == 1 then a.(mode := Len, lcode := cfg.tables.fixedLen, dcode := cfg.tables.fixedDist)
    else if kind == 2 then a.(mode := TableSizes)
    else a.(mode := Bad)
  }

  function StepStored(a: State): Option<State> {
    if Odd(a.bits.n) != 0 then Some(a.(bits := a.bits.Drop(Odd(a.bits.n))))
    else if a.bits.n < 32 then None
    else
      var length := a.bits.Peek(16);
      if length != 0xffff - a.bits.Drop(16).Peek(16) then Some(a.(mode := Bad))
      else Some(a.(mode := Copy(length), bits := a.bits.Drop(32)))
  }

  function StepCopy(a: State, length: nat, limit: nat): Option<State> {
    if length == 0 then Some(a.(mode := Type))
    else if a.bits.n < 8 || |a.out| >= limit then None
    else
      assert Pow2(8) == 256;
      Some(a.(mode := Copy(length - 1), bits := a.bits.Drop(8), out := a.out + [a.bits.Peek(8)]))
  }

  function StepTableSizes(a: State): Option<State> {
    if a.bits.n < 14 then None
    else
      var nlen := a.bits.Peek(5) + 257;
      var ndist := a.bits.Drop(5).Peek(5) + 1;
      var ncode := a.bits.Drop(10).Peek(4) + 4;
      Some(a.(mode := if nlen > 286 || ndist > 30 then Bad else LenLens(nlen, ndist, ncode, 0),
              bits := a.bits.Drop(14)))
  }

  function StepLenLens(cfg: Config, a: State, nlen: nat, ndist: nat, ncode: nat, have: nat): Option<State>
    requires |a.lens| == LENS && have <= ncode <= 19
  {
    if have < ncode then
      if a.bits.n < 3 then None
      else Some(a.(mode := LenLens(nlen, ndist, ncode, have + 1),
                   lens := a.lens[ORDER[have] := a.bits.Peek(3)], bits := a.bits.Drop(3)))
    else
      var lens := ClearRest(a.lens, have);
      match cfg.tables.codes(lens[..19])
      case None => Some(a.(mode := Bad, lens := lens))
      case Some(t) => Some(a.(mode := CodeLens(nlen, ndist, 0), lens := lens, lcode := t))
  }

  /** Extra bits of a code-length symbol: 16 copies the last length, 17 and 18 repeat zero. */
  function RepeatBits(val: nat): nat {
    if val < 16 then 0 else if val == 16 then 2 else if val == 17 then 3 else 7
  }

  function StepCodeLens(cfg: Config, a: State, nlen: nat, ndist: nat, have: nat): Option<State>
    requires |a.lens| == LENS && LensTableOk(a.lcode) && have <= nlen + ndist <= LENS && nlen >= 257
  {
    if have < nlen + ndist then
      var e := Entry(a.lcode.codes, 0, a.bits.Peek(a.lcode.root));
      var more := RepeatBits(e.val);
      if a.bits.n < e.bits + more then None
      else if e.val < 16 then
        Some(a.(mode := CodeLens(nlen, ndist, have + 1), lens := a.lens[have := e.val], bits := a.bits.Drop(e.bits)))
      else if e.val == 16 && have == 0 then
        Some(a.(mode := Bad, bits := a.bits.Drop(e.bits)))
      else
        var len := if e.val == 16 then a.lens[have - 1] else 0;
        var copy := (if e.val < 18 then 3 else 11) + a.bits.Drop(e.bits).Peek(more);
        if have + copy > nlen + ndist then
          Some(a.(mode := Bad, bits := a.bits.Drop(e.bits + more)))
        else
          Some(a.(mode := CodeLens(nlen, ndist, have + copy), lens := Fill(a.lens, have, copy, len),
                  bits := a.bits.Drop(e.bits + more)))
    else if a.lens[256] == 0 then Some(a.(mode := Bad))
    else match cfg.tables.lens(a.lens[..nlen])
      case None => Some(a.(mode := Bad))
      case Some(l) =>
        match cfg.tables.dists(a.lens[nlen..nlen + ndist])
        case None => Some(a.(mode := Bad, lcode := l))
        case Some(d) => Some(a.(mode := Len, lcode := l, dcode := d))
  }

  /** The state a literal/length code leads to. */
  function LengthMode(e: Code): Mode {
    if e.op == 0 && e.val < 256 then Lit(e.val)
    else if e.op == 96 then Type
    else if e.op >= 64 then Bad
    else LenExt(e.val, e.op % 16)
  }

  function StepLen(a: State): Option<State>
    requires LengthTableOk(a.lcode)
  {
    match Decode(a.lcode, a.bits)
    case None => None
    case Some((e, used)) =>
      DecodeLeaf(a.lcode, a.bits);
      Some(a.(mode := LengthMode(e), bits := a.bits.Drop(used)))
  }

  /** The state a distance code leads to. */
  function DistanceMode(length: nat, e: Code): Mode {
    if e.op >= 64 then Bad else DistExt(length, e.val, e.op % 16)
  }

  function StepDist(a: State, length: nat): Option<State>
    requires DistanceTableOk(a.dcode)
  {
    match Decode(a.dcode, a.bits)
    case None => None
    case Some((e, used)) =>
      DecodeLeaf(a.dcode, a.bits);
      Some(a.(mode := DistanceMode(length, e), bits := a.bits.Drop(used)))
  }

  function StepMatch(a: State, length: nat, offset: nat, limit: nat): Option<State>
    requires 1 <= length && 1 <= offset
  {
    if |a.out| >= limit then None
    else if offset > |a.out| then Some(a.(mode := Bad))
    else Some(a.(mode := if length == 1 then Len else MatchCopy(length - 1, offset),
                 out := a.out + [a.out[|a.out| - offset]]))
  }

  // ---- runs ----

  lemma DropBound(b: Bits, k: nat)
    requires b.u < Pow2(b.n) && k <= b.n
    ensures b.Drop(k).u < Pow2(b.n - k)
  {
    Pow2Add(k, b.n - k);
    QuotientBound(b.u, Pow2(k), Pow2(b.n - k));
  }

  /** b follows a in one step: it is well formed and input, output space or
      rank has gone down. */
  ghost predicate Follows(a: State, b: State, limit: nat) {
    && Wf(b) && b.bits.n <= a.bits.n
    && (b.bits.n == a.bits.n ==> Room(b, limit) <= Room(a, limit))
    && (b.bits.n == a.bits.n && Room(b, limit) == Room(a, limit) ==> Rank(b.mode) < Rank(a.mode))
  }

  lemma StepLenFollows(a: State, limit: nat)
    requires Wf(a) && a.mode.Len? && StepLen(a).Some?
    ensures Follows(a, StepLen(a).value, limit)
  {
    hide Replicated, SubTableOk, Pow2, Decode;
    assert TableOk(a.lcode);
    hide LengthTableOk, DistanceTableOk, TableOk, Decode, Pow2;
    LengthLeaf(a.lcode, a.bits);
    DropBound(a.bits, Decode(a.lcode, a.bits).value.1);
  }

  lemma LengthLeaf(t: Table, b: Bits)
    requires LengthTableOk(t) && Decode(t, b).Some?
    ensures LengthCode(Decode(t, b).value.0) && 1 <= Decode(t, b).value.1 <= b.n
    ensures Pow2(0) == 1
  {
    DecodeLeaf(t, b);
  }

  lemma DistanceLeaf(t: Table, b: Bits)
    requires DistanceTableOk(t) && Decode(t, b).Some?
    ensures DistanceCode(Decode(t, b).value.0) && 1 <= Decode(t, b).value.1 <= b.n
  {
    DecodeLeaf(t, b);
  }

  lemma StepDistFollows(a: State, length: nat, limit: nat)
    requires Wf(a) && a.mode == Dist(length) && StepDist(a, length).Some?
    ensures Follows(a, StepDist(a, length).value, limit)
  {
    hide Replicated, SubTableOk, Pow2, Decode;
    assert TableOk(a.dcode);
    hide LengthTableOk, DistanceTableOk, TableOk, Decode, Pow2;
    DistanceLeaf(a.dcode, a.bits);
    DropBound(a.bits, Decode(a.dcode, a.bits).value.1);
  }

  lemma StepCodeLensFollows(cfg: Config, a: State, nlen: nat, ndist: nat, have: nat, limit: nat)
    requires cfg.tables.Ok() && Wf(a) && a.mode == CodeLens(nlen, ndist, have)
    requires StepCodeLens(cfg, a, nlen, ndist, have).Some?
    ensures Follows(a, StepCodeLens(cfg, a, nlen, ndist, have).value, limit)
  {
    hide LengthTableOk, DistanceTableOk, Replicated, Pow2;
    var b := StepCodeLens(cfg, a, nlen, ndist, have).value;
    var i := a.bits.Peek(a.lcode.root);
    assert Entry(a.lcode.codes, 0, i).bits >= 1;
    hide LensTableOk;
    if b.bits.n != a.bits.n {
      assert b.bits == a.bits.Drop(a.bits.n - b.bits.n);
      DropBound(a.bits, a.bits.n - b.bits.n);
    }
  }

  lemma StepLenLensFollows(cfg: Config, a: State, nlen: nat, ndist: nat, ncode: nat, have: nat, limit: nat)
    requires cfg.tables.Ok() && Wf(a) && a.mode == LenLens(nlen, ndist, ncode, have)
    requires StepLenLens(cfg, a, nlen, ndist, ncode, have).Some?
    ensures Follows(a, StepLenLens(cfg, a, nlen, ndist, ncode, have).value, limit)
  {
    hide LengthTableOk, DistanceTableOk, LensTableOk, Pow2;
    if have < ncode { DropBound(a.bits, 3); }
  }

  lemma StepCopyFollows(a: State, limit: nat)
    requires Wf(a)
    ensures forall length :: a.mode == Copy(length) && StepCopy(a, length, limit).Some?
              ==> Follows(a, StepCopy(a, length, limit).value, limit)
    ensures forall length, offset :: a.mode == MatchCopy(length, offset) && StepMatch(a, length, offset, limit).Some?
              ==> Follows(a, StepMatch(a, length, offset, limit).value, limit)
  {
    if a.bits.n >= 8 { DropBound(a.bits, 8); }
  }

  lemma StepTypeFollows(cfg: Config, a: State, limit: nat)
    requires cfg.tables.Ok() && Wf(a) && a.mode.Type? && StepType(cfg, a).Some?
    ensures Follows(a, StepType(cfg, a).value, limit)
  {
    hide LengthTableOk, DistanceTableOk, LensTableOk, Pow2;
    if a.last { DropBound(a.bits, Odd(a.bits.n)); } else { DropBound(a.bits, 3); }
  }

  lemma StepStoredFollows(a: State, limit: nat)
    requires Wf(a) && a.mode.StoredLen? && StepStored(a).Some?
    ensures Follows(a, StepStored(a).value, limit)
  {
    hide Pow2;
    if Odd(a.bits.n) != 0 { DropBound(a.bits, Odd(a.bits.n)); } else { DropBound(a.bits, 32); }
  }

  lemma StepTableSizesFollows(a: State, limit: nat)
    requires Wf(a) && a.mode.TableSizes? && StepTableSizes(a).Some?
    ensures Follows(a, StepTableSizes(a).value, limit)
  {
    assert Pow2(5) == 32 && Pow2(4) == 16;
    hide Pow2;
    DropBound(a.bits, 14);
  }

  lemma StepFollows(cfg: Config, a: State, limit: nat)
    requires cfg.tables.Ok() && Wf(a) && Step(cfg, a, limit).Some?
    ensures Follows(a, Step(cfg, a, limit).value, limit)
  {
    hide Follows, StepLen, StepDist, StepCodeLens, StepLenLens, StepCopy, StepMatch, StepType, StepStored, StepTableSizes,
         LengthTableOk, DistanceTableOk, LensTableOk, Pow2;
    StepCopyFollows(a, limit);
    match a.mode
    case Type => StepTypeFollows(cfg, a, limit);
    case StoredLen => StepStoredFollows(a, limit);
    case TableSizes => StepTableSizesFollows(a, limit);
    case CodeLens(nlen, ndist, have) => StepCodeLensFollows(cfg, a, nlen, ndist, have, limit);
    case LenLens(nlen, ndist, ncode, have) => StepLenLensFollows(cfg, a, nlen, ndist, ncode, have, limit);
    case Len => StepLenFollows(a, limit);
    case Dist(length) => StepDistFollows(a, length, limit);
    case LenExt(length, extra) => StepExtraFollows(cfg, a, limit);
    case DistExt(length, offset, extra) => StepExtraFollows(cfg, a, limit);
    case Lit(_) => StepExtraFollows(cfg, a, limit);
    case _ =>
  }

  lemma StepExtraFollows(cfg: Config, a: State, limit: nat)
    requires cfg.tables.Ok() && Wf(a) && Step(cfg, a, limit).Some?
    requires a.mode.LenExt? || a.mode.DistExt? || a.mode.Lit?
    ensures Follows(a, Step(cfg, a, limit).value, limit)
  {
    hide LengthTableOk, DistanceTableOk, Pow2;
    if a.mode.LenExt? { DropBound(a.bits, a.mode.extra); }
    if a.mode.DistExt? { DropBound(a.bits, a.mode.extra); }
  }

  function Rank(m: Mode): nat {
    match m
    case Done => 0 case Bad => 0 case TooFar(_, _) => 0
    case Type => 1
    case Copy(_) => 2
    case Lit(_) => 3
    case Len => 4
    case MatchCopy(_, _) => 5
    case DistExt(_, _, _) => 6
    case Dist(_) => 7
    case LenExt(_, _) => 8
    case CodeLens(_, _, _) => 9
    case LenLens(_, _, _, _) => 10
    case TableSizes => 11
    case StoredLen => 12
  }

  function Room(a: State, limit: nat): nat {
    if |a.out| < limit then limit - |a.out| else 0
  }

  /** The machine run until it stops or waits. */
  function Run(cfg: Config, a: State, limit: nat): (r: State)
    requires cfg.tables.Ok() && Wf(a)
    ensures Wf(r) && Step(cfg, r, limit) == None
    decreases a.bits.n, Room(a, limit), Rank(a.mode)
  {
    match Step(cfg, a, limit)
    case None => a
    case Some(b) =>
      StepFollows(cfg, a, limit);
      Run(cfg, b, limit)
  }

  /** b comes strictly later than a in a run: what a run decreases. */
  ghost predicate Later(a: State, b: State, limit: nat) {
    || b.bits.n < a.bits.n
    || (b.bits.n == a.bits.n && Room(b, limit) < Room(a, limit))
    || (b.bits.n == a.bits.n && Room(b, limit) == Room(a, limit) && Rank(b.mode) < Rank(a.mode))
  }

  /** The run from a passes through b. */
  ghost predicate Reaches(cfg: Config, a: State, b: State, limit: nat) {
    && cfg.tables.Ok() && Wf(a) && Wf(b)
    && Run(cfg, a, limit) == Run(cfg, b, limit)
    && (b == a || Later(a, b, limit))
  }

  lemma StepReaches(cfg: Config, a: State, b: State, limit: nat)
    requires cfg.tables.Ok() && Wf(a) && Step(cfg, a, limit) == Some(b)
    ensures Reaches(cfg, a, b, limit) && Later(a, b, limit)
  {
    hide Step, Wf, Tables.Ok;
    StepFollows(cfg, a, limit);
  }

  /** The machine waits or has stopped. */
  ghost predicate Stuck(cfg: Config, a: State, limit: nat) {
    cfg.tables.Ok() && Wf(a) && Step(cfg, a, limit) == None
  }

  lemma ReachesSame(cfg: Config, a: State, limit: nat)
    requires cfg.tables.Ok() && Wf(a)
    ensures Reaches(cfg, a, a, limit)
  {
    hide Wf, Tables.Ok;
  }

  lemma ReachesWf(cfg: Config, a: State, b: State, limit: nat)
    requires Reaches(cfg, a, b, limit)
    ensures Wf(a) && Wf(b) && cfg.tables.Ok()
  {
    hide Wf, Tables.Ok;
  }

  lemma ReachesTrans(cfg: Config, a: State, b: State, c: State, limit: nat)
    requires Reaches(cfg, a, b, limit) && Reaches(cfg, b, c, limit)
    ensures Reaches(cfg, a, c, limit)
    ensures Later(a, b, limit) || Later(b, c, limit) ==> Later(a, c, limit)
  {
    hide Wf, Tables.Ok, Run;
  }

  // ---- resumability ----

  /** The same state with more input behind it. */
  function Feed(a: State, more: seq<byte>): State {
    a.(bits := a.bits.Append(more))
  }

  lemma FeedWf(a: State, more: seq<byte>)
    requires Wf(a)
    ensures Wf(Feed(a, more))
  {
    AppendBound(a.bits, more);
  }

  /** What a step does is not affected by input that comes later. */
  ghost predicate StepStable(cfg: Config, a: State, limit: nat, more: seq<byte>, limit': nat)
    requires cfg.tables.Ok() && Wf(a) && Wf(Feed(a, more)) && Step(cfg, a, limit).Some?
  {
    Step(cfg, Feed(a, more), limit') == Some(Feed(Step(cfg, a, limit).value, more))
  }

  lemma TypeStable(cfg: Config, a: State, more: seq<byte>)
    requires StepType(cfg, a).Some?
    ensures StepType(cfg, Feed(a, more)) == Some(Feed(StepType(cfg, a).value, more))
  {
    hide Pow2, LE, Quotient;
    if a.last {
      OddShift(a.bits.n, |more|);
      DropAppend(a.bits, more, Odd(a.bits.n));
    } else {
      BlockTypeStable(a.bits, more);
    }
  }

  lemma BlockTypeStable(b: Bits, more: seq<byte>)
    requires b.n >= 3
    ensures var c := b.Append(more);
            && c.n >= 3 && c.Peek(1) == b.Peek(1) && c.Drop(1).Peek(2) == b.Drop(1).Peek(2)
            && c.Drop(3) == b.Drop(3).Append(more)
  {
    hide Pow2, LE, Quotient;
    PeekAppend(b, more, 1);
    DropPeekAppend(b, more, 1, 2);
    DropAppend(b, more, 3);
  }

  lemma StoredStable(a: State, more: seq<byte>)
    requires StepStored(a).Some?
    ensures StepStored(Feed(a, more)) == Some(Feed(StepStored(a).value, more))
  {
    OddShift(a.bits.n, |more|);
    hide Pow2, LE, Quotient;
    if Odd(a.bits.n) != 0 {
      DropAppend(a.bits, more, Odd(a.bits.n));
    } else {
      PeekAppend(a.bits, more, 16);
      DropPeekAppend(a.bits, more, 16, 16);
      DropAppend(a.bits, more, 32);
    }
  }

  lemma CopyStable(a: State, length: nat, limit: nat, more: seq<byte>, limit': nat)
    requires StepCopy(a, length, limit).Some? && limit <= limit'
    ensures StepCopy(Feed(a, more), length, limit') == Some(Feed(StepCopy(a, length, limit).value, more))
  {
    if length != 0 {
      PeekAppend(a.bits, more, 8);
      DropAppend(a.bits, more, 8);
    }
  }

  lemma TableSizesStable(a: State, more: seq<byte>)
    requires StepTableSizes(a).Some?
    ensures StepTableSizes(Feed(a, more)) == Some(Feed(StepTableSizes(a).value, more))
  {
    hide Pow2, LE, Quotient;
    PeekAppend(a.bits, more, 5);
    DropPeekAppend(a.bits, more, 5, 5);
    DropPeekAppend(a.bits, more, 10, 4);
    DropAppend(a.bits, more, 14);
  }

  lemma LenLensStable(cfg: Config, a: State, nlen: nat, ndist: nat, ncode: nat, have: nat, more: seq<byte>)
    requires |a.lens| == LENS && have <= ncode <= 19
    requires StepLenLens(cfg, a, nlen, ndist, ncode, have).Some?
    ensures StepLenLens(cfg, Feed(a, more), nlen, ndist, ncode, have)
            == Some(Feed(StepLenLens(cfg, a, nlen, ndist, ncode, have).value, more))
  {
    hide Pow2, LE, Quotient;
    if have < ncode {
      PeekAppend(a.bits, more, 3);
      DropAppend(a.bits, more, 3);
    }
  }

  /** A one-level lookup is settled by the bits it uses. */
  lemma LensEntryStable(t: Table, b: Bits, more: seq<byte>)
    requires LensTableOk(t) && Entry(t.codes, 0, b.Peek(t.root)).bits <= b.n
    ensures Entry(t.codes, 0, b.Append(more).Peek(t.root)) == Entry(t.codes, 0, b.Peek(t.root))
  {
    PeekAppend(b, more, Entry(t.codes, 0, b.Peek(t.root)).bits);
    SameEntry(t.codes, 0, t.root, b, b.Append(more));
  }

  lemma CodeLensStable(cfg: Config, a: State, nlen: nat, ndist: nat, have: nat, more: seq<byte>)
    requires |a.lens| == LENS && LensTableOk(a.lcode) && have <= nlen + ndist <= LENS && nlen >= 257
    requires StepCodeLens(cfg, a, nlen, ndist, have).Some?
    ensures StepCodeLens(cfg, Feed(a, more), nlen, ndist, have)
            == Some(Feed(StepCodeLens(cfg, a, nlen, ndist, have).value, more))
  {
    if have < nlen + ndist {
      var e := Entry(a.lcode.codes, 0, a.bits.Peek(a.lcode.root));
      var k := RepeatBits(e.val);
      hide Pow2, LE, Quotient;
      LensEntryStable(a.lcode, a.bits, more);
      DropAppend(a.bits, more, e.bits);
      DropPeekAppend(a.bits, more, e.bits, k);
      DropAppend(a.bits, more, e.bits + k);
    }
  }

  lemma StartsAppend(b: Bits, more: seq<byte>)
    ensures Starts(b, b.Append(more))
  {
    PeekAppend(b, more, b.n);
  }

  lemma LenStable(a: State, more: seq<byte>)
    requires LengthTableOk(a.lcode) && StepLen(a).Some?
    ensures StepLen(Feed(a, more)) == Some(Feed(StepLen(a).value, more))
  {
    DecodeLeaf(a.lcode, a.bits);
    StartsAppend(a.bits, more);
    DecodeStable(a.lcode, a.bits, a.bits.Append(more));
    hide Pow2, LE, Quotient, Decode;
    DropAppend(a.bits, more, Decode(a.lcode, a.bits).value.1);
  }

  lemma DistStable(a: State, length: nat, more: seq<byte>)
    requires DistanceTableOk(a.dcode) && StepDist(a, length).Some?
    ensures StepDist(Feed(a, more), length) == Some(Feed(StepDist(a, length).value, more))
  {
    DecodeLeaf(a.dcode, a.bits);
    StartsAppend(a.bits, more);
    DecodeStable(a.dcode, a.bits, a.bits.Append(more));
    hide Pow2, LE, Quotient, Decode;
    DropAppend(a.bits, more, Decode(a.dcode, a.bits).value.1);
  }

  lemma StepIsStable(cfg: Config, a: State, limit: nat, more: seq<byte>, limit': nat)
    requires cfg.tables.Ok() && Wf(a) && Wf(Feed(a, more)) && Step(cfg, a, limit).Some? && limit <= limit'
    ensures StepStable(cfg, a, limit, more, limit')
  {
    hide StepLen, StepDist, StepCodeLens, StepLenLens, StepCopy, StepType, StepStored, StepTableSizes,
         LengthTableOk, DistanceTableOk, LensTableOk, Pow2;
    match a.mode
    case Type => TypeStable(cfg, a, more);
    case StoredLen => StoredStable(a, more);
    case Copy(length) => CopyStable(a, length, limit, more, limit');
    case TableSizes => TableSizesStable(a, more);
    case LenLens(nlen, ndist, ncode, have) => LenLensStable(cfg, a, nlen, ndist, ncode, have, more);
    case CodeLens(nlen, ndist, have) => CodeLensStable(cfg, a, nlen, ndist, have, more);
    case Len => LenStable(a, more);
    case Dist(length) => DistStable(a, length, more);
    case LenExt(_, extra) => PeekAppend(a.bits, more, extra); DropAppend(a.bits, more, extra);
    case DistExt(_, _, extra) => PeekAppend(a.bits, more, extra); DropAppend(a.bits, more, extra);
    case _ =>
  }

  /** Resumability: stopping for lack of input or output space and going on
      later, with more of either, ends exactly where an uninterrupted run ends. */
  lemma {:induction false} Resume(cfg: Config, a: State, limit: nat, more: seq<byte>, limit': nat)
    requires cfg.tables.Ok() && Wf(a) && limit <= limit'
    ensures Wf(Feed(a, more)) && Wf(Feed(Run(cfg, a, limit), more))
    ensures Run(cfg, Feed(Run(cfg, a, limit), more), limit') == Run(cfg, Feed(a, more), limit')
    decreases a.bits.n, Room(a, limit), Rank(a.mode)
  {
    FeedWf(a, more);
    FeedWf(Run(cfg, a, limit), more);
    match Step(cfg, a, limit)
    case None =>
    case Some(b) =>
      StepFollows(cfg, a, limit);
      Resume(cfg, b, limit, more, limit');
      StepIsStable(cfg, a, limit, more, limit');
  }

  /** One call of inflate: more input behind the old, and a bound on the history. */
  datatype Piece = Piece(more: seq<byte>, limit: nat)

  function AllInput(ps: seq<Piece>): seq<byte> {
    if ps == [] then [] else AllInput(ps[..|ps| - 1]) + ps[|ps| - 1].more
  }

  ghost function RunPieces(cfg: Config, a: State, ps: seq<Piece>): (r: State)
    requires cfg.tables.Ok() && Wf(a)
    ensures Wf(r)
  {
    if ps == [] then a else
      var r := RunPieces(cfg, a, ps[..|ps| - 1]);
      FeedWf(r, ps[|ps| - 1].more);
      Run(cfg, Feed(r, ps[|ps| - 1].more), ps[|ps| - 1].limit)
  }

  lemma FeedNothing(a: State)
    ensures Feed(a, []) == a
  {
  }

  /** However the input and the output space are cut into calls, going on to a
      limit that covers them all ends in the state of a single call. */
  lemma {:induction false} AnyCuts(cfg: Config, a: State, ps: seq<Piece>, limit: nat)
    requires cfg.tables.Ok() && Wf(a) && forall i :: 0 <= i < |ps| ==> ps[i].limit <= limit
    ensures Wf(Feed(a, AllInput(ps)))
    ensures Run(cfg, RunPieces(cfg, a, ps), limit) == Run(cfg, Feed(a, AllInput(ps)), limit)
    decreases |ps|
  {
    FeedWf(a, AllInput(ps));
    FeedNothing(a);
    if ps != [] {
      hide Run, Wf, Tables.Ok;
      var qs, p := ps[..|ps| - 1], ps[|ps| - 1];
      var r, b := RunPieces(cfg, a, qs), Feed(a, AllInput(qs));
      AnyCuts(cfg, a, qs, limit);
      FeedWf(r, p.more);
      FeedNothing(Run(cfg, Feed(r, p.more), p.limit));
      FeedNothing(Feed(r, p.more));
      Resume(cfg, Feed(r, p.more), p.limit, [], limit);
      Resume(cfg, r, limit, p.more, limit);
      Resume(cfg, b, limit, p.more, limit);
      AppendAppend(a.bits, AllInput(qs), p.more);
    }
  }

  /** A run only appends to the output, and only up to the limit. */
  lemma {:induction false} RunExtends(cfg: Config, a: State, limit: nat)
    requires cfg.tables.Ok() && Wf(a)
    ensures a.out <= Run(cfg, a, limit).out
    ensures |Run(cfg, a, limit).out| <= if |a.out| < limit then limit else |a.out|
    decreases a.bits.n, Room(a, limit), Rank(a.mode)
  {
    match Step(cfg, a, limit)
    case None =>
    case Some(b) =>
      StepExtends(cfg, a, limit);
      StepFollows(cfg, a, limit);
      RunExtends(cfg, b, limit);
  }

  lemma StepExtends(cfg: Config, a: State, limit: nat)
    requires cfg.tables.Ok() && Wf(a) && Step(cfg, a, limit).Some?
    ensures var b := Step(cfg, a, limit).value;
            a.out <= b.out && |b.out| <= |a.out| + 1 && (b.out != a.out ==> |a.out| < limit)
  {
    hide LengthTableOk, DistanceTableOk, LensTableOk, Tables.Ok, Decode, Pow2;
  }

  // ---- several steps at once ----

  /** The state after c bytes of the match that `a` is copying. */
  function AfterBytes(a: State, c: nat): State
    requires a.mode.MatchCopy? && c <= a.mode.length && 1 <= a.mode.offset <= |a.out|
  {
    if c == 0 then a else
      a.(mode := if c == a.mode.length then Len else MatchCopy(a.mode.length - c, a.mode.offset),
         out := CopyBack(a.out, a.mode.offset, c))
  }

  lemma MatchByte(cfg: Config, a: State, limit: nat, c: nat)
    requires cfg.tables.Ok() && Wf(a) && a.mode.MatchCopy? && c < a.mode.length
    requires 1 <= a.mode.offset <= |a.out| && |a.out| + c < limit
    ensures Wf(AfterBytes(a, c)) && Step(cfg, AfterBytes(a, c), limit) == Some(AfterBytes(a, c + 1))
  {
    hide LengthTableOk, DistanceTableOk, Tables.Ok, Pow2;
    assert AfterBytes(a, c).out == CopyBack(a.out, a.mode.offset, c);
    assert AfterBytes(a, c + 1).out
        == AfterBytes(a, c).out + [AfterBytes(a, c).out[|a.out| + c - a.mode.offset]];
  }

  /** c bytes of a match: the machine's byte-by-byte copy is CopyBack. */
  lemma {:induction false} MatchBytes(cfg: Config, a: State, limit: nat, c: nat)
    requires cfg.tables.Ok() && Wf(a) && a.mode.MatchCopy? && c <= a.mode.length
    requires 1 <= a.mode.offset <= |a.out| && |a.out| + c <= limit
    ensures Wf(AfterBytes(a, c)) && Run(cfg, a, limit) == Run(cfg, AfterBytes(a, c), limit)
    decreases c
  {
    hide Wf, Tables.Ok, Step, Run, Later, CopyBack;
    if c != 0 {
      hide AfterBytes;
      MatchBytes(cfg, a, limit, c - 1);
      MatchByte(cfg, a, limit, c - 1);
      StepReaches(cfg, AfterBytes(a, c - 1), AfterBytes(a, c), limit);
    }
  }

  /** The state after c more bytes of a stored block, read from fed[i..]. */
  function AfterStored(a: State, fed: seq<byte>, i: nat, c: nat): State
    requires a.mode.Copy? && c <= a.mode.length && i + c <= |fed|
  {
    a.(mode := Copy(a.mode.length - c), bits := Remaining(fed, 8 * (i + c)), out := a.out + fed[i..i + c])
  }

  lemma StoredByte(cfg: Config, a: State, limit: nat, fed: seq<byte>, i: nat, c: nat)
    requires cfg.tables.Ok() && Wf(a) && a.mode.Copy? && c < a.mode.length
    requires i + c < |fed| && |a.out| + c < limit
    ensures Wf(AfterStored(a, fed, i, c))
    ensures Step(cfg, AfterStored(a, fed, i, c), limit) == Some(AfterStored(a, fed, i, c + 1))
  {
    RemainingBound(fed, 8 * (i + c));
    hide LE, Pow2, Tables.Ok, Remaining, Bits.Peek, Bits.Drop, LengthTableOk, DistanceTableOk;
    NextByte(fed, i + c);
    assert 8 * (i + c) + 8 == 8 * (i + (c + 1));
    RemainingDrop(fed, 8 * (i + c), 8);
    var b := AfterStored(a, fed, i, c);
    assert Step(cfg, b, limit) == StepCopy(b, b.mode.length, limit);
    assert b.out + [fed[i + c]] == a.out + fed[i..i + (c + 1)];
  }

  /** c bytes of a stored block, taken from whole bytes of input. */
  lemma {:induction false} StoredBytes(cfg: Config, a: State, limit: nat, fed: seq<byte>, i: nat, c: nat)
    requires cfg.tables.Ok() && Wf(a) && a.mode.Copy? && c <= a.mode.length
    requires i + c <= |fed| && a.bits == Remaining(fed, 8 * i) && |a.out| + c <= limit
    ensures Wf(AfterStored(a, fed, i, c)) && Run(cfg, a, limit) == Run(cfg, AfterStored(a, fed, i, c), limit)
    decreases c
  {
    hide Wf, Tables.Ok, Step, Run, Later, Remaining;
    if c == 0 {
      assert a.out + fed[i..i] == a.out;
    } else {
      hide AfterStored;
      StoredBytes(cfg, a, limit, fed, i, c - 1);
      StoredByte(cfg, a, limit, fed, i, c - 1);
      StepReaches(cfg, AfterStored(a, fed, i, c - 1), AfterStored(a, fed, i, c), limit);
    }
  }

  lemma NextByte(fed: seq<byte>, i: nat)
    requires i < |fed|
    ensures Remaining(fed, 8 * i).Peek(8) == fed[i]
  {
    PullPeek(fed, 8 * i, i);
    assert Pow2(0) == 1 && Remaining(fed, 8 * i).Peek(0) == 0;
  }

  // ---- running past a distance beyond the window ----

  /** The program may go on where this machine stops at TooFar.  `far` is the
      stopped machine, if it has stopped; b is what the program does.  Up to
      that point the run from a passes through b. */
  ghost predicate Tracks(cfg: Config, far0: Option<State>, a: State, far: Option<State>, b: State, limit: nat) {
    if far0.Some? then far == far0
    else if far.Some? then far.value.mode.TooFar? && Reaches(cfg, a, far.value, limit)
    else Reaches(cfg, a, b, limit)
  }

  lemma TracksTrans(cfg: Config, far0: Option<State>, a: State, far1: Option<State>, b: State,
                    far2: Option<State>, c: State, limit: nat)
    requires Tracks(cfg, far0, a, far1, b, limit) && Tracks(cfg, far1, b, far2, c, limit)
    ensures Tracks(cfg, far0, a, far2, c, limit)
  {
    hide Reaches;
    if far0.None? && far1.None? {
      ReachesTrans(cfg, a, b, if far2.Some? then far2.value else c, limit);
    }
  }

  lemma TracksFrom(cfg: Config, far0: Option<State>, a: State, b: State, far: Option<State>, c: State, limit: nat)
    requires Reaches(cfg, a, b, limit) && Tracks(cfg, far0, b, far, c, limit)
    ensures Tracks(cfg, far0, a, far, c, limit)
  {
    TracksTrans(cfg, far0, a, far0, b, far, c, limit);
    hide Reaches, Tracks;
  }

  /** Where the program waits or has stopped, the run from its start ends. */
  lemma TracksEnds(cfg: Config, far0: Option<State>, a: State, far: Option<State>, b: State, limit: nat)
    requires Tracks(cfg, far0, a, far, b, limit) && (far.None? ==> Stuck(cfg, b, limit))
    requires cfg.tables.Ok() && (far0.Some? ==> Wf(far0.value) && far0.value.mode.TooFar?)
    ensures Wf(if far0.Some? then far0.value else a)
    ensures (if far.Some? then far.value else b) == Run(cfg, if far0.Some? then far0.value else a, limit)
    ensures far.Some? ==> Wf(far.value) && far.value.mode.TooFar?
  {
    hide Wf, Tables.Ok;
  }

  // ---- single steps, as the fast path takes them ----

  lemma LenReaches(cfg: Config, a: State, e: Code, used: nat, limit: nat)
    requires cfg.tables.Ok() && Wf(a) && a.mode.Len? && TableOk(a.lcode) && Decode(a.lcode, a.bits) == Some((e, used))
    ensures used <= a.bits.n && LengthTableOk(a.lcode) && LengthCode(e)
    ensures Reaches(cfg, a, a.(mode := LengthMode(e), bits := a.bits.Drop(used)), limit)
  {
    assert LengthTableOk(a.lcode);
    hide Wf, Tables.Ok, Decode, LengthTableOk, DistanceTableOk, LengthMode, Pow2, Step, TableOk, LengthCode;
    LengthLeaf(a.lcode, a.bits);
    StepCases(cfg, a, limit);
    StepReaches(cfg, a, a.(mode := LengthMode(e), bits := a.bits.Drop(used)), limit);
  }

  lemma LitReaches(cfg: Config, a: State, limit: nat)
    requires cfg.tables.Ok() && Wf(a) && a.mode.Lit? && |a.out| < limit
    ensures Reaches(cfg, a, a.(mode := Len, out := a.out + [a.mode.c]), limit)
  {
    hide Wf, Tables.Ok, LengthTableOk, DistanceTableOk;
    StepReaches(cfg, a, a.(mode := Len, out := a.out + [a.mode.c]), limit);
  }

  lemma LenExtReaches(cfg: Config, a: State, limit: nat)
    requires cfg.tables.Ok() && Wf(a) && a.mode.LenExt? && a.mode.extra <= a.bits.n
    ensures Reaches(cfg, a, a.(mode := Dist(a.mode.length + a.bits.Peek(a.mode.extra)),
                               bits := a.bits.Drop(a.mode.extra)), limit)
  {
    hide Wf, Tables.Ok, LengthTableOk, DistanceTableOk, Pow2;
    StepReaches(cfg, a, a.(mode := Dist(a.mode.length + a.bits.Peek(a.mode.extra)),
                           bits := a.bits.Drop(a.mode.extra)), limit);
  }

  lemma DistReaches(cfg: Config, a: State, e: Code, used: nat, limit: nat)
    requires cfg.tables.Ok() && Wf(a) && a.mode.Dist? && TableOk(a.dcode) && Decode(a.dcode, a.bits) == Some((e, used))
    ensures used <= a.bits.n && DistanceTableOk(a.dcode) && DistanceCode(e)
    ensures Reaches(cfg, a, a.(mode := DistanceMode(a.mode.length, e), bits := a.bits.Drop(used)), limit)
  {
    assert DistanceTableOk(a.dcode);
    hide Wf, Tables.Ok, Decode, LengthTableOk, DistanceTableOk, DistanceMode, Pow2, Step, TableOk, DistanceCode;
    DistanceLeaf(a.dcode, a.bits);
    StepCases(cfg, a, limit);
    StepReaches(cfg, a, a.(mode := DistanceMode(a.mode.length, e), bits := a.bits.Drop(used)), limit);
  }

  lemma DistExtReaches(cfg: Config, a: State, limit: nat)
    requires cfg.tables.Ok() && Wf(a) && a.mode.DistExt? && a.mode.extra <= a.bits.n
    ensures Wf(DistanceKnown(a)) && Reaches(cfg, a, WithinWindow(cfg, DistanceKnown(a)), limit)
  {
    hide Wf, Tables.Ok, Step, WithinWindow, Bits.Peek, Bits.Drop;
    DistanceKnownWf(cfg, a, limit);
    StepReaches(cfg, a, WithinWindow(cfg, DistanceKnown(a)), limit);
  }

  lemma MatchReaches(cfg: Config, a: State, limit: nat)
    requires cfg.tables.Ok() && Wf(a) && a.mode.MatchCopy?
    requires 1 <= a.mode.offset <= |a.out| && |a.out| + a.mode.length <= limit && a.mode.length >= 1
    ensures Reaches(cfg, a, a.(mode := Len, out := CopyBack(a.out, a.mode.offset, a.mode.length)), limit)
  {
    hide Wf, Tables.Ok, Step, Run, CopyBack;
    MatchBytes(cfg, a, limit, a.mode.length);
  }

  lemma BadReaches(cfg: Config, a: State, limit: nat)
    requires cfg.tables.Ok() && Wf(a) && a.mode.MatchCopy? && |a.out| < limit && a.mode.offset > |a.out|
    ensures Reaches(cfg, a, a.(mode := Bad), limit)
  {
    assert a.mode.length >= 1;
    hide Wf, Tables.Ok, LengthTableOk, DistanceTableOk;
    StepReaches(cfg, a, a.(mode := Bad), limit);
  }
}
