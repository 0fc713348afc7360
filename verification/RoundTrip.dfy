/** What deflate writes, inflate reads back. */
module RoundTrip {
  import opened Machine
  import opened BitStrings
  import opened BitWriter
  import opened DeflateSpec
  import opened DeflateRuns
  import opened BlockFormat
  import opened Blocks
  import opened BlockFlush
  import opened DeflateState
  import opened DeflateOutput
  import opened DeflateFast
  import opened DeflateCalls
  import opened InflateState
  import opened InflateModes
  import InflateCalls
  import SyncSearch

  lemma FlushedFacts(d: Deflater)
    requires Flushed(d, true)
    ensures d.out == d.b.w.pending && d.base + d.blockStart == |d.total| && d.b.w.biValid == 0
  {
  }

  /** What has gone out is all that was written. */
  lemma OutIsStream(d: Deflater)
    requires Flushed(d, true)
    ensures ByteBits(d.out) == d.b.w.Stream() && |d.b.w.Stream()| == 8 * |d.out|
  {
    hide *;
    FlushedFacts(d);
    StreamIs(d.b.w);
    ByteBitsSizes(d.out, []);
    BitsLength(d.b.w.biBuf, 0);
  }

  lemma SentAtEnd(finished: bool, stream: seq<bool>, total: seq<byte>, from: Restart)
    requires SentFrom(true, finished, stream, total, |total|, from)
    ensures from.input <= |total| && 8 * from.output <= |stream|
    ensures finished ==>
      Reaches(stream, Config(Header(false), [], 8 * from.output), Config(Done, total[from.input..], |stream|))
    ensures !finished ==>
      Reaches(stream, Config(Header(false), [], 8 * from.output), Config(Header(false), total[from.input..], |stream|))
  {
    hide Reaches;
    var n := 8 * from.output;
    if !finished {
      assert stream[..n] + stream[n..] == stream && total[from.input..|total|] == total[from.input..];
      assert Continues(stream, stream[..n], stream[n..]);
    }
  }

  /** What has gone out decodes from the beginning, and from the last full flush. */
  lemma OutDecodes(d: Deflater, from: Restart)
    requires Rest(d) && Flushed(d, true) && d.fits && (from == BEGINNING || from == d.restart)
    ensures from.input <= |d.total| && from.output <= |d.out|
    ensures Reaches(ByteBits(d.out), Config(Header(false), [], 8 * from.output),
                    Config(if d.finished then Done else Header(false), d.total[from.input..], 8 * |d.out|))
  {
    hide *;
    FlushedFacts(d);
    OutIsStream(d);
    RestFacts(d);
    StreamFacts(d, ParsedTo(d));
    SentFacts(true, d.finished, d.b.w.Stream(), d.total, d.base + d.blockStart, d.restart, d.spent);
    SentAtEnd(d.finished, d.b.w.Stream(), d.total, from);
  }

  /** The bytes of a finished stream decode to the input. */
  lemma StreamDecodes(d: Deflater)
    requires Rest(d) && Complete(d) && d.fits
    ensures Reaches(ByteBits(d.out), START(), Config(Done, d.total, 8 * |d.out|))
  {
    hide *;
    CompleteIs(d);
    OutDecodes(d, BEGINNING);
    FromTheBeginning(d.total);
  }

  lemma FromTheBeginning(total: seq<byte>)
    ensures total[BEGINNING.input..] == total && Config(Header(false), [], 8 * BEGINNING.output) == START()
  {
  }

  /** Up to a flush that left no bits over, what has gone out decodes to all that was read. */
  lemma FlushDecodes(d: Deflater)
    requires Rest(d) && Flushed(d, true) && !d.finished && d.fits
    ensures Reaches(ByteBits(d.out), START(), Config(Header(false), d.total, 8 * |d.out|))
  {
    hide *;
    OutDecodes(d, BEGINNING);
    FromTheBeginning(d.total);
  }

  /** deflate, then inflate: for any cutting up of the input and output of either, with the tables of the dynamic
      blocks within inflate's bounds, the data come out as they went in. */
  lemma InflateUndoesDeflate(d: Deflater, s: Inflater)
    requires Rest(d) && Complete(d) && d.fits && InflateCalls.RanOut(d.out, s.fed, s.Cfg())
    ensures s.hist == d.total && s.phase == Done
  {
    hide *;
    StreamDecodes(d);
    ByteBitsSizes(d.out, []);
    InflateCalls.InflateRecovers(s, d.out, d.total);
  }

  /** With Z_FIXED there are no dynamic blocks, and nothing to suppose. */
  lemma FixedRoundTrip(d: Deflater, s: Inflater)
    requires Rest(d) && Complete(d) && d.strategy == Fixed && InflateCalls.RanOut(d.out, s.fed, s.Cfg())
    ensures s.hist == d.total && s.phase == Done
  {
    hide *;
    RestFacts(d);
    StreamFacts(d, ParsedTo(d));
    InflateUndoesDeflate(d, s);
  }

  /** After Z_SYNC_FLUSH or Z_FULL_FLUSH, what has gone out is enough for all that was read. */
  lemma FlushIsReadable(d: Deflater, s: Inflater)
    requires Rest(d) && Flushed(d, true) && !d.finished && d.fits && InflateCalls.RanOut(d.out, s.fed, s.Cfg())
    ensures s.hist == d.total && s.phase == Header(false)
  {
    hide *;
    FlushDecodes(d);
    ByteBitsSizes(d.out, []);
    CfgIs(s);
    var end := Config(Header(false), d.total, 8 * |d.out|);
    HeaderShort(ByteBits(d.out), d.total, 8 * |d.out|);
    InflateCalls.IsRanOut(d.out, d.out, end);
    InflateCalls.ChunksDoNotMatter(d.out, s.fed, s.Cfg(), d.out, end);
  }

  // ---- Beginning at a full flush

  lemma MovedIs(c: Config, m: nat)
    ensures Moved(c, m) == Config(c.phase, c.out, 8 * m + c.pos)
  {
  }

  /** What was put out after the last full flush is a stream of its own, of the input read after it. */
  lemma RestartDecodes(d: Deflater)
    requires Rest(d) && Flushed(d, true) && d.fits
    ensures d.restart.input <= |d.total| && d.restart.output <= |d.out|
    ensures Reaches(ByteBits(d.out[d.restart.output..]), START(),
                    Config(if d.finished then Done else Header(false), d.total[d.restart.input..], 8 * (|d.out| - d.restart.output)))
  {
    hide *;
    OutDecodes(d, d.restart);
    var m, phase := d.restart.output, if d.finished then Done else Header(false);
    var end := Config(phase, d.total[d.restart.input..], 8 * (|d.out| - m));
    BytesAfter(d.out, m);
    StartIs();
    MovedIs(START(), m);
    MovedIs(end, m);
    ReachesMoves(ByteBits(d.out), m, START(), end);
  }

  lemma StartIs()
    ensures START() == Config(Header(false), [], 0)
  {
  }

  /** An inflater started on the bytes put out after the last full flush gives back exactly the input read after it. */
  lemma RestartRecovers(d: Deflater, s: Inflater)
    requires Rest(d) && Complete(d) && d.fits && d.restart.output <= |d.out| && d.restart.input <= |d.total|
    requires InflateCalls.RanOut(d.out[d.restart.output..], s.fed, s.Cfg())
    ensures s.hist == d.total[d.restart.input..] && s.phase == Done
  {
    hide *;
    CompleteIs(d);
    RestartDecodes(d);
    ByteBitsSizes(d.out[d.restart.output..], []);
    InflateCalls.InflateRecovers(s, d.out[d.restart.output..], d.total[d.restart.input..]);
  }

  /** What syncsearch looks for is what Z_SYNC_FLUSH and Z_FULL_FLUSH leave at the end. */
  lemma FlushLeavesPattern(d: Deflater, flush: Flush)
    requires Told(d, flush) && (flush == SyncFlush || flush == FullFlush)
    ensures SyncSearch.EndsWith(d.out, 4)
  {
    hide Readable;
    assert SyncSearch.PATTERN[..4] == SyncSearch.PATTERN;
  }

  /** After a partial flush too, calls that read everything have put out all that was read by then. */
  lemma FlushTellsAll(d: Deflater, flush: Flush, s: Inflater)
    requires Told(d, flush) && (flush == PartialFlush || flush == SyncFlush || flush == FullFlush) && d.fits
    requires InflateCalls.RanOut(d.out, s.fed, s.Cfg())
    ensures d.total <= s.hist
  {
    hide Reaches, ByteBits, Step;
    var n: nat :| n <= 8 * |d.out| && Reaches(ByteBits(d.out), START(), Config(Header(false), d.total, n));
    InflateCalls.RanOutIsEnd(d.out, s.fed, s.Cfg());
    PastOnTheWay(ByteBits(d.out), START(), Config(Header(false), d.total, n), s.Cfg());
    OutputStays(ByteBits(d.out), Config(Header(false), d.total, n), s.Cfg());
    CfgIs(s);
  }
}
