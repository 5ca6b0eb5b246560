/** inflate.c: inflateSync() on a decoder that holds a partial byte and a whole
    one.  Whether the bytes it searches are the bytes held is decided by
    SyncSearch.SyncShift; this decoder is one for which they are not. */
module SyncEntry {
  import opened Lz77
  import opened Binary
  import opened BitSource
  import opened CodeTables
  import opened InflateSpec
  import opened Inflate
  import FastEntry
  import SyncSearch

  /** The header of a dynamic block (bits 0, 0, 1), and 13 bits more. */
  const INPUT: seq<byte> := [0x04, 0xff]

  lemma InputBits()
    ensures Bits(0, 0).Append(INPUT) == Bits(0xff04, 16)
    ensures Bits(0xff04, 16).Peek(1) == 0 && Bits(0xff04, 16).Drop(1).Peek(2) == 2
    ensures Bits(0xff04, 16).Drop(3) == Bits(0x1fe0, 13)
  {
    assert Pow2(0) == 1 && Pow2(1) == 2 && Pow2(2) == 4 && Pow2(3) == 8;
    assert LE(INPUT[1..]) == 0xff by { assert INPUT[1..] == [0xff]; assert INPUT[1..][1..] == []; }
  }

  lemma WaitsInTable(cfg: Config, a: State, limit: nat)
    requires cfg.tables.Ok() && Wf(a) && a.mode.Type? && !a.last && a.bits == Bits(0, 0)
    ensures Wf(Feed(a, INPUT))
    ensures Run(cfg, Feed(a, INPUT), limit) == a.(mode := TableSizes, bits := Bits(0x1fe0, 13))
  {
    FeedWf(a, INPUT);
    InputBits();
    hide Wf, Tables.Ok, Pow2, Bits.Peek, Bits.Drop, Bits.Append, Reaches, Run;
    var b := Feed(a, INPUT);
    var c := b.(mode := TableSizes, bits := Bits(0x1fe0, 13));
    StepReaches(cfg, b, c, limit);
    ReachesWf(cfg, b, c, limit);
    FastEntry.SameEnd(cfg, b, c, limit);
    Waits(cfg, c, limit);
  }

  lemma Waits(cfg: Config, c: State, limit: nat)
    requires cfg.tables.Ok() && Wf(c) && c.mode.TableSizes? && c.bits.n < 14
    ensures Run(cfg, c, limit) == c
  {
    hide Wf, Tables.Ok;
  }

  /** A call with these two bytes leaves 13 bits; inflateSync then searches a
      zero byte where 0xff is held. */
  method HoldsThirteen(t: Tables) returns (inf: InflateState, buf: seq<nat>)
    requires t.Ok()
    ensures fresh(inf) && inf.Sound() && inf.tables == t && inf.mode == TABLE && inf.bits == 13
    ensures SyncSearch.HeldBytes(inf.hold, inf.bits) == [0xff] && buf == [0]
  {
    hide Tables.Ok, Wf, Run, Feed, InflateState.Sound, InflateState.Abs;
    inf := new InflateState(t, 15);
    ghost var a := inf.Abs();
    FastEntry.Started(inf);
    WaitsInTable(inf.Cfg(), a, 1);
    var output := new byte[1];
    var ret, written := inf.Inflate(INPUT, output);
    NothingOut(inf);
    inf.AllHeld();
    buf := SyncSearch.BufferBytes(inf.hold, inf.bits);
    Searched();
  }

  lemma NothingOut(inf: InflateState)
    requires inf.Sound() && inf.Abs().mode.TableSizes?
    ensures inf.before == inf.Abs().out && inf.mode == TABLE && inf.far.None?
  {
    assert inf.far.None?;
    inf.SoundGives([]);
    hide InflateState.Core, InflateState.InReach, InflateState.WindowFits;
  }

  lemma Searched()
    ensures SyncSearch.HeldBytes(0x1fe0, 13) == [0xff]
    ensures SyncSearch.LowBytes(0x1fe0 * Pow2(13 % 8), 13 / 8) == [0]
  {
    assert Pow2(5) == 32;
    assert 0x1fe0 * 32 == 0x3fc00;
  }
}
