/** inflate.c: one input, two ways to cut it into calls, two verdicts.  A literal
    and a match of 258 bytes make 259 bytes of history; then a distance of 259 in
    a window of 256 is taken when the history is in the output of the same call,
    and refused when it is not.  Window.VerdictOfCuts says for which distances
    this happens. */
module CutVerdicts {
  import opened Lz77
  import opened Binary
  import opened BitSource
  import opened CodeTables
  import opened InflateSpec
  import opened Inflate
  import opened Window
  import FastEntry

  /** The entries of the fixed tables (inffixed.h) that the input meets. */
  ghost predicate FixedEntries(t: Table, d: Table) {
    && TableOk(t) && t.root == 9 && TableOk(d) && d.root == 5
    && Entry(t.codes, 0, 511) == Code(0, 9, 255) && Entry(t.codes, 0, 163) == Code(16, 8, 258)
    && Entry(t.codes, 0, 64) == Code(16, 7, 3) && Entry(t.codes, 0, 192) == Code(16, 7, 3)
    && Entry(d.codes, 0, 0) == Code(16, 5, 1) && Entry(d.codes, 0, 1) == Code(23, 5, 257)
  }

  const INPUT: seq<byte> := [0xfa, 0x3f, 0x0a, 0x80, 0x41, 0x00]

  /** A fixed block, the literal 255, length 258 at distance 1, length 3. */
  predicate Leads(b: Bits) {
    && b.n >= 32 && b.Peek(1) == 0 && b.Drop(1).Peek(2) == 1
    && b.Drop(3).Peek(9) == 511 && b.Drop(12).Peek(9) == 163
    && b.Drop(20).Peek(5) == 0 && b.Drop(25).Peek(9) in {64, 192}
  }

  lemma Powers()
    ensures Pow2(0) == 1 && Pow2(1) == 2 && Pow2(2) == 4 && Pow2(3) == 8 && Pow2(5) == 32 && Pow2(7) == 128
    ensures Pow2(9) == 512 && Pow2(12) == 4096 && Pow2(20) == 0x10_0000 && Pow2(25) == 0x200_0000
    ensures Pow2(32) == 0x1_0000_0000 && Pow2(37) == 0x20_0000_0000
  {
    assert Pow2(0) == 1 && Pow2(1) == 2 && Pow2(2) == 4 && Pow2(3) == 8 && Pow2(5) == 32 && Pow2(7) == 128;
    assert Pow2(9) == 512;
    hide Pow2;
    Pow2Add(3, 9);
    Pow2Add(12, 7);
    Pow2Add(19, 1);
    Pow2Add(20, 5);
    Pow2Add(25, 7);
    Pow2Add(32, 5);
  }

  lemma InputBits()
    ensures Bits(0, 0).Append(INPUT) == Bits(0x41800a3ffa, 48)
  {
    Powers();
    hide Pow2;
    FourBytes(0xfa, 0x3f, 0x0a, 0x80);
    FourBytes(0x41, 0, 0, 0);
    LEAppend([0xfa, 0x3f, 0x0a, 0x80], [0x41, 0x00]);
    LEAppend([0x41, 0x00], [0, 0]);
    assert INPUT == [0xfa, 0x3f, 0x0a, 0x80] + [0x41, 0x00] && [0x41, 0x00] + [0, 0] == [0x41, 0, 0, 0];
    TwoZeros();
    assert LE(INPUT) == 0x41800a3ffa;
  }

  lemma WholeInput()
    ensures var b := Bits(0, 0).Append(INPUT);
            b.n == 48 && Leads(b) && b.Drop(32).Peek(5) == 1 && b.Drop(37).Peek(7) == 2
  {
    InputBits();
    Powers();
    hide Pow2, Bits.Append;
  }

  lemma FirstBytes()
    ensures var b := Bits(0, 0).Append(INPUT[..4]); b.n == 32 && Leads(b)
  {
    Powers();
    hide Pow2;
    FourBytes(0xfa, 0x3f, 0x0a, 0x80);
    assert INPUT[..4] == [0xfa, 0x3f, 0x0a, 0x80];
  }

  lemma TwoZeros()
    ensures LE([0, 0]) == 0
  {
    assert [0, 0][1..] == [0] && [0][1..] == [];
  }

  lemma FourBytes(a: byte, b: byte, c: byte, d: byte)
    ensures LE([a, b, c, d]) == a as int + 0x100 * b as int + 0x1_0000 * c as int + 0x100_0000 * d as int
  {
    var s, t, u, v: seq<byte> := [a, b, c, d], [b, c, d], [c, d], [d];
    assert s[1..] == t && t[1..] == u && u[1..] == v && v[1..] == [];
    assert LE(v) == d as int && LE(u) == c as int + 256 * LE(v);
    assert LE(t) == b as int + 256 * LE(u) && LE(s) == a as int + 256 * LE(t);
  }

  // ---- what the machine makes of it ----

  /** A symbol whose entry is on the first level. */
  lemma FirstLevel(t: Table, b: Bits, e: Code)
    requires TableOk(t) && Entry(t.codes, 0, b.Peek(t.root)) == e && e.bits <= b.n && !e.IsLink()
    ensures Decode(t, b) == Some((e, e.bits))
  {
  }

  /** The match of length e.val begins: no extra bits. */
  lemma LengthStep(cfg: Config, a: State, e: Code, limit: nat)
    requires cfg.tables.Ok() && Wf(a) && a.mode.Len? && TableOk(a.lcode) && Decode(a.lcode, a.bits) == Some((e, e.bits))
    requires e.op == 16
    ensures e.bits <= a.bits.n && Reaches(cfg, a, a.(mode := Dist(e.val), bits := a.bits.Drop(e.bits)), limit)
  {
    hide Wf, Tables.Ok, Decode, TableOk, Pow2, Reaches;
    LenReaches(cfg, a, e, e.bits, limit);
    var b := a.(mode := LenExt(e.val, 0), bits := a.bits.Drop(e.bits));
    ReachesWf(cfg, a, b, limit);
    LenExtReaches(cfg, b, limit);
    NoBits(b.bits);
    ReachesTrans(cfg, a, b, b.(mode := Dist(e.val)), limit);
  }

  lemma NoBits(b: Bits)
    ensures b.Peek(0) == 0 && b.Drop(0) == b
  {
  }

  /** As far as the second distance code. */
  lemma ToDistance(cfg: Config, a: State, limit: nat) returns (c: State)
    requires cfg.tables.Ok() && FixedEntries(cfg.tables.fixedLen, cfg.tables.fixedDist) && cfg.wSize >= 1
    requires Wf(a) && a.mode.Type? && !a.last && Leads(a.bits) && |a.out| + 259 <= limit
    ensures Reaches(cfg, a, c, limit) && c.mode == Dist(3) && c.bits == a.bits.Drop(32)
    ensures c.dcode == cfg.tables.fixedDist && |c.out| == |a.out| + 259
  {
    var t, d := cfg.tables.fixedLen, cfg.tables.fixedDist;
    Powers();
    hide Wf, Tables.Ok, Decode, TableOk, Pow2, Reaches, Bits.Peek, Bits.Drop, CopyBack;
    DropDrop(a.bits, 3, 9);
    DropDrop(a.bits, 12, 8);
    DropDrop(a.bits, 20, 5);
    DropDrop(a.bits, 25, 7);
    // the block
    var s := a.(mode := Len, lcode := t, dcode := d, bits := a.bits.Drop(3));
    StepReaches(cfg, a, s, limit);
    ReachesWf(cfg, a, s, limit);
    // the literal
    DropSize(a.bits, 3);
    FirstLevel(t, s.bits, Code(0, 9, 255));
    LenReaches(cfg, s, Code(0, 9, 255), 9, limit);
    var l := s.(mode := Lit(255), bits := a.bits.Drop(12));
    ReachesWf(cfg, s, l, limit);
    LitReaches(cfg, l, limit);
    var m := l.(mode := Len, out := l.out + [255]);
    ReachesTrans(cfg, a, s, l, limit);
    ReachesTrans(cfg, a, l, m, limit);
    ReachesWf(cfg, a, m, limit);
    // length 258, distance 1
    DropSize(a.bits, 12);
    FirstLevel(t, m.bits, Code(16, 8, 258));
    LengthStep(cfg, m, Code(16, 8, 258), limit);
    var n := m.(mode := Dist(258), bits := a.bits.Drop(20));
    ReachesTrans(cfg, a, m, n, limit);
    ReachesWf(cfg, a, n, limit);
    DropSize(a.bits, 20);
    FirstLevel(d, n.bits, Code(16, 5, 1));
    DistReaches(cfg, n, Code(16, 5, 1), 5, limit);
    var o := n.(mode := DistExt(258, 1, 0), bits := a.bits.Drop(25));
    ReachesTrans(cfg, a, n, o, limit);
    ReachesWf(cfg, a, o, limit);
    NoBits(o.bits);
    DistExtReaches(cfg, o, limit);
    var p := o.(mode := MatchCopy(258, 1));
    ReachesTrans(cfg, a, o, p, limit);
    ReachesWf(cfg, a, p, limit);
    MatchReaches(cfg, p, limit);
    var q := p.(mode := Len, out := CopyBack(p.out, 1, 258));
    ReachesTrans(cfg, a, p, q, limit);
    ReachesWf(cfg, a, q, limit);
    // length 3
    DropSize(a.bits, 25);
    FirstLevel(t, q.bits, Code(16, 7, 3));
    LengthStep(cfg, q, Code(16, 7, 3), limit);
    c := q.(mode := Dist(3), bits := a.bits.Drop(32));
    ReachesTrans(cfg, a, q, c, limit);
  }

  lemma DropSize(b: Bits, k: nat)
    requires k <= b.n
    ensures b.Drop(k).n == b.n - k
  {
  }

  /** On to the distance 259, where the machine stops. */
  lemma ToFar(cfg: Config, a: State, limit: nat)
    requires cfg.tables.Ok() && FixedEntries(cfg.tables.fixedLen, cfg.tables.fixedDist) && 1 <= cfg.wSize <= 258
    requires Wf(a) && a.mode.Type? && !a.last && Leads(a.bits) && |a.out| + 259 <= limit
    requires a.bits.n >= 44 && a.bits.Drop(32).Peek(5) == 1 && a.bits.Drop(37).Peek(7) == 2
    ensures var r := Run(cfg, a, limit);
            r.mode == TooFar(3, 259) && |r.out| == |a.out| + 259 && r.bits.n == a.bits.n - 44
  {
    hide Wf, Tables.Ok, Decode, TableOk, Pow2, Reaches, Bits.Peek, Bits.Drop, Leads, Run;
    var c := ToDistance(cfg, a, limit);
    ReachesWf(cfg, a, c, limit);
    LeadsSize(a.bits);
    DropDrop(a.bits, 32, 5);
    DropSize(a.bits, 32);
    DropSize(a.bits, 37);
    FirstLevel(c.dcode, c.bits, Code(23, 5, 257));
    DistReaches(cfg, c, Code(23, 5, 257), 5, limit);
    var e := c.(mode := DistExt(3, 257, 7), bits := a.bits.Drop(37));
    ReachesTrans(cfg, a, c, e, limit);
    ReachesWf(cfg, a, e, limit);
    DistExtReaches(cfg, e, limit);
    var f := e.(mode := TooFar(3, 259), bits := e.bits.Drop(7));
    DropSize(e.bits, 7);
    ReachesTrans(cfg, a, e, f, limit);
    FastEntry.SameEnd(cfg, a, f, limit);
    TooFarStops(cfg, f, limit);
  }

  lemma LeadsSize(b: Bits)
    requires Leads(b)
    ensures b.n >= 32
  {
  }

  // ---- the decoder ----

  /** Goes on until the program is about to copy from a distance beyond the window
      size; with few bytes of input inflate_fast is not used. */
  method RunToMatch(inf: InflateState)
    requires inf.Core() && inf.Io() && inf.InReach() && inf.WindowFits() && inf.far.None? && |inf.input| <= 5
    requires inf.Cfg().tables.Ok() && Wf(inf.Now()) && Run(inf.Cfg(), inf.Now(), inf.Limit()).mode.TooFar?
    modifies inf, inf.lens, inf.outBuf
    ensures inf.Io() && inf.WindowHolds() && inf.mode == MATCH
    ensures inf.outBuf == old(inf.outBuf) && inf.before == old(inf.before) && inf.put + inf.left == old(inf.put + inf.left)
    ensures var r := Run(inf.Cfg(), old(inf.Now()), old(inf.Limit()));
            r.mode == TooFar(inf.length, inf.offset) && r.out == inf.Hist()
  {
    hide Wf, Tables.Ok, Run, InflateState.Core, InflateState.Now, InflateState.InReach, InflateState.WindowHolds,
         InflateState.Hist, InflateState.Limit, InflateState.JustFar, Tracks, Later, Stuck;
    ghost var a, limit := inf.Now(), inf.Limit();
    inf.StartsHere();
    inf.LimitIs();
    while true
      invariant inf.Core() && inf.Io() && inf.InReach() && inf.WindowFits() && inf.Limit() == limit
      invariant inf.input == old(inf.input) && inf.outBuf == old(inf.outBuf) && inf.before == old(inf.before)
      invariant inf.put + inf.left == old(inf.put + inf.left)
      invariant Tracks(inf.Cfg(), None, a, None, inf.Now(), limit)
      invariant inf.far.None?
      decreases inf.Now().bits.n, Room(inf.Now(), limit), Rank(inf.Now().mode)
    {
      NotDone(inf, a, limit);
      ghost var b := inf.Now();
      var more := inf.OneState();
      inf.TurnGives(None, b, more);
      inf.LimitIs();
      TracksTrans(inf.Cfg(), None, a, None, b, inf.far, inf.Now(), limit);
      if inf.mode == MATCH && inf.offset > inf.window.Length { break; }
      StillNear(inf);
      NotStuck(inf, a, limit);
      assert Later(b, inf.Now(), limit);
      Sooner(b, inf.Now(), limit);
    }
    Reached(inf);
    AtMatch(inf, a, limit);
  }

  lemma Sooner(a: State, b: State, limit: nat)
    requires Later(a, b, limit)
    ensures b.bits.n < a.bits.n || (b.bits.n == a.bits.n && Room(b, limit) < Room(a, limit))
         || (b.bits.n == a.bits.n && Room(b, limit) == Room(a, limit) && Rank(b.mode) < Rank(a.mode))
  {
  }

  lemma StillNear(inf: InflateState)
    requires inf.JustFar(None)
    requires inf.mode != MATCH || inf.offset <= inf.window.Length
    ensures inf.far.None?
  {
  }

  lemma Reached(inf: InflateState)
    requires inf.InReach() && inf.mode == MATCH && inf.offset > inf.window.Length
    ensures inf.far.Some?
  {
  }

  lemma StuckStays(cfg: Config, a: State, limit: nat)
    requires Stuck(cfg, a, limit)
    ensures cfg.tables.Ok() && Wf(a) && Run(cfg, a, limit) == a
  {
    hide Wf, Tables.Ok, Step;
  }

  lemma NotStuck(inf: InflateState, a: State, limit: nat)
    requires inf.Cfg().tables.Ok() && Wf(a) && Run(inf.Cfg(), a, limit).mode.TooFar?
    requires Tracks(inf.Cfg(), None, a, None, inf.Now(), limit)
    ensures !Stuck(inf.Cfg(), inf.Now(), limit)
  {
    hide Wf, Tables.Ok, Run, Stuck;
    if Stuck(inf.Cfg(), inf.Now(), limit) {
      StuckStays(inf.Cfg(), inf.Now(), limit);
    }
  }

  lemma NotDone(inf: InflateState, a: State, limit: nat)
    requires inf.Core() && inf.WindowFits() && inf.far.None? && inf.Limit() == limit
    requires inf.Cfg().tables.Ok() && Wf(a) && Run(inf.Cfg(), a, limit).mode.TooFar?
    requires Tracks(inf.Cfg(), None, a, None, inf.Now(), limit)
    ensures inf.mode !in {DONE, BAD} && inf.WindowHolds()
  {
    hide Wf, Tables.Ok, Run, Stuck, Tracks, InflateState.Core, InflateState.Now;
    NotStuck(inf, a, limit);
    if inf.mode in {DONE, BAD} { inf.Stopped(); }
  }

  lemma AtMatch(inf: InflateState, a: State, limit: nat)
    requires inf.Cfg().tables.Ok() && Wf(a) && inf.far.Some? && inf.JustFar(None) && inf.WindowFits()
    requires Tracks(inf.Cfg(), None, a, inf.far, inf.Now(), limit)
    ensures inf.mode == MATCH && inf.WindowHolds()
    ensures var r := Run(inf.Cfg(), a, limit);
            r.mode == TooFar(inf.length, inf.offset) && r.out == inf.Hist()
  {
    hide Wf, Tables.Ok, Run;
    TooFarStops(inf.Cfg(), inf.far.value, limit);
  }

  /** A call with the first four bytes writes all 259. */
  lemma AllWritten(cfg: Config, a: State)
    requires cfg.tables.Ok() && FixedEntries(cfg.tables.fixedLen, cfg.tables.fixedDist) && cfg.wSize >= 1
    requires Wf(a) && a.mode.Type? && !a.last && a.bits == Bits(0, 0) && a.out == []
    ensures Wf(Feed(a, INPUT[..4]))
    ensures var r := Run(cfg, Feed(a, INPUT[..4]), 259); |r.out| == 259 && r.bits.n == 0
  {
    FeedWf(a, INPUT[..4]);
    FirstBytes();
    hide Wf, Tables.Ok, Run, Leads, FixedEntries, Reaches, TableOk, Pow2;
    var b := Feed(a, INPUT[..4]);
    var c := ToDistance(cfg, b, 259);
    DropSize(b.bits, 32);
    ReachesWf(cfg, b, c, 259);
    FastEntry.SameEnd(cfg, b, c, 259);
    NothingToDecode(cfg, c, 259);
  }

  /** A call with the first byte reads the block's header. */
  lemma HeaderRead(cfg: Config, a: State)
    requires cfg.tables.Ok() && Wf(a) && a.mode.Type? && !a.last && a.bits == Bits(0, 0)
    ensures Wf(Feed(a, INPUT[..1])) && Run(cfg, Feed(a, INPUT[..1]), 0).bits.n <= 5
  {
    FeedWf(a, INPUT[..1]);
    var b := Feed(a, INPUT[..1]);
    hide Wf, Tables.Ok, Run, Bits.Peek;
    var c := Step(cfg, b, 0).value;
    StepReaches(cfg, b, c, 0);
    ReachesWf(cfg, b, c, 0);
    FastEntry.SameEnd(cfg, b, c, 0);
    BitsShrink(cfg, c, 0);
  }

  lemma {:induction false} BitsShrink(cfg: Config, a: State, limit: nat)
    requires cfg.tables.Ok() && Wf(a)
    ensures Run(cfg, a, limit).bits.n <= a.bits.n
    decreases a.bits.n, Room(a, limit), Rank(a.mode)
  {
    hide Wf, Tables.Ok, Step;
    if Step(cfg, a, limit).Some? {
      StepFollows(cfg, a, limit);
      BitsShrink(cfg, Step(cfg, a, limit).value, limit);
    }
  }

  lemma NothingToDecode(cfg: Config, c: State, limit: nat)
    requires cfg.tables.Ok() && Wf(c) && c.mode.Dist? && c.bits.n == 0
    ensures Run(cfg, c, limit) == c
  {
    assert DistanceTableOk(c.dcode);
    if Decode(c.dcode, c.bits).Some? { DecodeLeaf(c.dcode, c.bits); }
    hide Wf, Tables.Ok, Decode, TableOk, DistanceTableOk, LengthTableOk;
    StepCases(cfg, c, limit);
  }

  /** However it is cut, the input leads to the distance 259. */
  lemma BothEnd(cfg: Config, a: State, n: nat, room: nat, limit: nat)
    requires cfg.tables.Ok() && FixedEntries(cfg.tables.fixedLen, cfg.tables.fixedDist) && 1 <= cfg.wSize <= 258
    requires Wf(a) && a.mode.Type? && !a.last && a.bits == Bits(0, 0) && a.out == []
    requires n <= 6 && room <= limit && 259 <= limit
    ensures Wf(Feed(a, INPUT[..n]))
    ensures var m := Run(cfg, Feed(a, INPUT[..n]), room);
            && Wf(Feed(m, INPUT[n..]))
            && var r := Run(cfg, Feed(m, INPUT[n..]), limit);
               r.mode == TooFar(3, 259) && |r.out| == 259 && r.bits.n == 4
  {
    FeedWf(a, INPUT[..n]);
    FeedWf(a, INPUT);
    WholeInput();
    FedInTwo(a, INPUT, n);
    hide Wf, Tables.Ok, Run, Leads, FixedEntries, Feed, Bits.Append, Bits.Peek, Bits.Drop;
    Resume(cfg, Feed(a, INPUT[..n]), room, INPUT[n..], limit);
    ToFar(cfg, Feed(a, INPUT), limit);
  }

  lemma FedInTwo(a: State, s: seq<byte>, n: nat)
    requires n <= |s|
    ensures Feed(Feed(a, s[..n]), s[n..]) == Feed(a, s) == a.(bits := a.bits.Append(s))
  {
    AppendAppend(a.bits, s[..n], s[n..]);
    hide Bits.Append;
    assert s[..n] + s[n..] == s;
  }

  /** The state between the calls. */
  lemma Between(inf: InflateState, a: State, n: nat, room: nat, limit: nat)
    requires inf.Sound() && inf.window.Length == 256 && FixedEntries(inf.tables.fixedLen, inf.tables.fixedDist)
    requires Wf(a) && a.mode.Type? && !a.last && a.bits == Bits(0, 0) && a.out == []
    requires n <= 4 && room <= limit && 259 <= limit
    requires Wf(Feed(a, INPUT[..n])) && inf.Cfg().tables.Ok() && inf.Abs() == Run(inf.Cfg(), Feed(a, INPUT[..n]), room)
    ensures inf.Core() && inf.InReach() && inf.WindowFits() && inf.put == 0 && inf.far.None?
    ensures inf.before == inf.Abs().out && inf.Abs() == inf.Now() && Wf(Feed(inf.Now(), INPUT[n..]))
    ensures var r := Run(inf.Cfg(), Feed(inf.Now(), INPUT[n..]), limit);
            r.mode == TooFar(3, 259) && |r.out| == 259
  {
    var cfg := inf.Cfg();
    BothEnd(cfg, a, n, room, limit);
    inf.SoundGives(INPUT[n..]);
    hide Wf, Tables.Ok, Run, FixedEntries, InflateState.Sound, InflateState.Core, InflateState.InReach, InflateState.WindowFits;
    if inf.far.Some? {
      TooFarStops(cfg, Feed(inf.far.value, INPUT[n..]), limit);
    }
  }

  lemma UsedUp(inf: InflateState)
    requires inf.Core() && inf.Now().bits.n < 8
    ensures inf.next == |inf.input|
  {
    inf.HeldCount();
    hide InflateState.Core;
  }

  /** A decoder with a window of 256 bytes after the first n bytes of the input. */
  method AfterFirst(t: Tables, n: nat, room: nat) returns (inf: InflateState)
    requires t.Ok() && FixedEntries(t.fixedLen, t.fixedDist)
    requires (n == 1 && room == 0) || (n == 4 && room == 259)
    ensures fresh(inf) && fresh(inf.window) && fresh(inf.lens) && inf.window.Length == 256
    ensures inf.Core() && inf.InReach() && inf.WindowFits() && inf.put == 0 && inf.far.None? && inf.next == |inf.input|
    ensures |inf.before| == if n == 4 then 259 else 0
    ensures Wf(Feed(inf.Now(), INPUT[n..])) && inf.Cfg().tables.Ok()
    ensures var r := Run(inf.Cfg(), Feed(inf.Now(), INPUT[n..]), |inf.before| + 700);
            r.mode == TooFar(3, 259) && |r.out| == 259
  {
    hide Tables.Ok, FixedEntries, Wf, Run, Feed, InflateState.Sound, InflateState.Core, InflateState.Now,
         InflateState.Abs, InflateState.InReach, InflateState.WindowFits;
    inf := new InflateState(t, 8);
    assert Pow2(8) == 256;
    hide Pow2;
    ghost var a := inf.Abs();
    FastEntry.Started(inf);
    if n == 4 { AllWritten(inf.Cfg(), a); } else { HeaderRead(inf.Cfg(), a); }
    var first := new byte[room];
    var ret, w := inf.Inflate(INPUT[..n], first);
    Between(inf, a, n, room, |inf.before| + 700);
    UsedUp(inf);
  }

  /** The input cut after n bytes, with room for `room` bytes in the first call: the
      verdict on the distance 259, and how much of the history the second call wrote. */
  method Verdict(t: Tables, n: nat, room: nat) returns (refused: bool, ghost written: nat)
    requires t.Ok() && FixedEntries(t.fixedLen, t.fixedDist)
    requires (n == 1 && room == 0) || (n == 4 && room == 259)
    ensures refused <==> n == 4
    ensures written == if n == 4 then 0 else 259
  {
    hide Tables.Ok, FixedEntries, Wf, Run, Feed, InflateState.Core, InflateState.Now,
         InflateState.InReach, InflateState.WindowFits;
    var inf := AfterFirst(t, n, room);
    refused, written := Second(inf, INPUT[n..]);
  }

  /** The second call, as far as the distance. */
  method Second(inf: InflateState, rest: seq<byte>) returns (refused: bool, ghost written: nat)
    requires inf.Core() && inf.InReach() && inf.WindowFits() && inf.put == 0 && inf.far.None?
    requires inf.next == |inf.input| && |rest| <= 5 && inf.window.Length == 256 && |inf.before| <= 259
    requires Wf(Feed(inf.Now(), rest)) && inf.Cfg().tables.Ok()
    requires var r := Run(inf.Cfg(), Feed(inf.Now(), rest), |inf.before| + 700); r.mode == TooFar(3, 259) && |r.out| == 259
    modifies inf, inf.lens
    ensures refused <==> written < 3
    ensures written == 259 - |old(inf.before)|
  {
    hide Tables.Ok, Wf, Run, Feed, InflateState.Core, InflateState.Now,
         InflateState.InReach, InflateState.WindowFits, InflateState.WindowHolds, InflateState.Hist;
    var second := new byte[700];
    inf.Begin(rest, second);
    inf.CoreGives();
    RunToMatch(inf);
    inf.HistLength();
    written := inf.put;
    var copy := inf.CopyMatch();
    refused := copy == 0;
  }
}
