/**
 * File processing of simple-crypt (processing.h): the streaming XOR transform
 * `process_data` with its retry helper `write_fully`, the file-type decision
 * `stat_file`, the dispatch `process_item` over a directory tree, the batch
 * loop `process_files`, the temporary-name search `gen_temporary_name` and the
 * mode choice of `process_regular_file`.
 *
 * The C stdio calls are modelled by the class `File`: a read side that plays a
 * script of `fread` results and an `eof` flag, and a write side that logs the
 * bytes `fwrite` accepts, following a script of how many bytes each call
 * accepts. Each loop of the source is a method proved against a pure
 * function (`DataFrom`, `WriteFrom`, `Outcome`, `FirstFailure`), and the
 * lemmas state what those functions promise.
 */
module Processing {
  import opened Crypto
  import opened Arguments

  /** BUFFER_SIZE: the size of the shared block buffer. */
  const BUFFER_SIZE: nat := 0x1000

  // ---------------------------------------------------------------------------
  // The transform
  // ---------------------------------------------------------------------------

  /** Byte-wise exclusive or of a block with a key stream of the same length. */
  function Xor(d: seq<bv8>, ks: seq<bv8>): (r: seq<bv8>)
    requires |ks| == |d|
    ensures |r| == |d|
  {
    seq(|d|, j requires 0 <= j < |d| => d[j] ^ ks[j])
  }

  /** The bytes `d` transformed by the generator starting in state `g`. */
  function Stream(g: GenState, d: seq<bv8>): (r: seq<bv8>)
    requires ValidState(g)
    ensures |r| == |d|
  {
    Xor(d, Keystream(g, |d|))
  }

  /** What one `process_data` run does to its whole input under `key`. */
  function Transform(key: bv64, d: seq<bv8>): (r: seq<bv8>)
    ensures |r| == |d|
  {
    Stream(Init(key), d)
  }

  /** Exclusive or with the same key stream undoes itself. */
  lemma XorInvolution(d: seq<bv8>, ks: seq<bv8>)
    requires |ks| == |d|
    ensures Xor(Xor(d, ks), ks) == d
  {
    var r := Xor(Xor(d, ks), ks);
    forall j | 0 <= j < |d|
      ensures r[j] == d[j]
    {
      assert r[j] == (d[j] ^ ks[j]) ^ ks[j];
    }
  }

  /** Exclusive or works position by position, so it distributes over `+`. */
  lemma XorAppend(a: seq<bv8>, b: seq<bv8>, ka: seq<bv8>, kb: seq<bv8>)
    requires |ka| == |a| && |kb| == |b|
    ensures Xor(a + b, ka + kb) == Xor(a, ka) + Xor(b, kb)
  {
    var l, r := Xor(a + b, ka + kb), Xor(a, ka) + Xor(b, kb);
    forall j | 0 <= j < |l|
      ensures l[j] == r[j]
    {
      if j < |a| {
        assert (a + b)[j] == a[j] && (ka + kb)[j] == ka[j];
      } else {
        assert (a + b)[j] == b[j - |a|] && (ka + kb)[j] == kb[j - |a|];
      }
    }
  }

  /** Transforming twice with the same key restores the data. */
  lemma TransformInvolution(key: bv64, d: seq<bv8>)
    ensures Transform(key, Transform(key, d)) == d
  {
    XorInvolution(d, Keystream(Init(key), |d|));
  }

  /** Byte `i` of the key stream is what the `i + 1`-th call of `gen()` returns. */
  lemma {:induction false} KeystreamAt(g: GenState, n: nat, i: nat)
    requires ValidState(g) && i < n
    ensures Keystream(g, n)[i] == Next(After(g, i)).1
    decreases i
  {
    if i > 0 {
      var t := Next(g).0;
      KeystreamAt(t, n - 1, i - 1);
      assert Keystream(g, n)[i] == Keystream(t, n - 1)[i - 1];
      assert After(g, i) == After(t, i - 1);
    }
  }

  /**
   * The key stream runs on across blocks: transforming `a + b` is transforming
   * `a`, then `b` with the generator where `a` left it.
   */
  lemma StreamAppend(g: GenState, a: seq<bv8>, b: seq<bv8>)
    requires ValidState(g)
    ensures Stream(g, a + b) == Stream(g, a) + Stream(After(g, |a|), b)
  {
    KeystreamSplit(g, |a|, |b|, |a + b|);
    XorAppend(a, b, Keystream(g, |a|), Keystream(After(g, |a|), |b|));
  }

  /**
   * The inner loop of `process_data`: XOR the first `n` bytes of the buffer
   * with the next `n` bytes of the generator, in place.
   */
  method TransformBlock(crypto: Crypto, buf: array<bv8>, n: nat)
    requires crypto.Valid() && n <= buf.Length && buf as object != crypto.lgc
    modifies crypto, crypto.lgc, buf
    ensures crypto.Valid() && crypto.lgc == old(crypto.lgc)
    ensures crypto.State() == After(old(crypto.State()), n)
    ensures buf[..n] == Stream(old(crypto.State()), old(buf[..n]))
    ensures buf[n..] == old(buf[n..])
  {
    ghost var g := crypto.State();
    ghost var d := buf[..];
    ghost var ks := Keystream(g, n);
    for i := 0 to n
      invariant crypto.Valid() && crypto.lgc == old(crypto.lgc)
      invariant crypto.State() == After(g, i)
      invariant forall j :: 0 <= j < buf.Length ==> buf[j] == if j < i then d[j] ^ ks[j] else d[j]
    {
      var k := crypto.Gen();
      KeystreamAt(g, n, i);
      AfterSnoc(g, i, i + 1);
      buf[i] := buf[i] ^ k;
    }
    assert buf[..n] == Xor(d[..n], ks);
  }

  // ---------------------------------------------------------------------------
  // Streams
  // ---------------------------------------------------------------------------

  /** One `fread` result: the bytes delivered and whether it set the end-of-file flag. */
  datatype Chunk = Chunk(data: seq<bv8>, hitEnd: bool)

  /** The read side of a stream: the reads still to come and `feof`. */
  datatype Reader = Reader(chunks: seq<Chunk>, eof: bool)

  /**
   * The write side of a stream: the bytes accepted so far, how many bytes each
   * coming `fwrite` accepts (an empty script accepts everything, 0 is a
   * failure), and whether `fseek` succeeds.
   */
  datatype Writer = Writer(written: seq<bv8>, quota: seq<nat>, seekable: bool)

  /** No read delivers more than the buffer holds. */
  predicate Bounded(r: Reader)
  {
    forall k :: 0 <= k < |r.chunks| ==> |r.chunks[k].data| <= BUFFER_SIZE
  }

  /**
   * fread into the buffer: the next scripted chunk; a stream with nothing left
   * delivers no bytes and sets the end-of-file flag.
   */
  function FRead(r: Reader): (res: (seq<bv8>, Reader))
    ensures Bounded(r) ==> |res.0| <= BUFFER_SIZE && Bounded(res.1)
    ensures r.chunks == [] ==> res.0 == [] && res.1.eof
    ensures r.chunks != [] ==> |res.1.chunks| == |r.chunks| - 1
  {
    if r.chunks == [] then ([], Reader([], true))
    else (r.chunks[0].data, Reader(r.chunks[1..], r.chunks[0].hitEnd))
  }

  /** fwrite of `bytes`: the stream takes a prefix of them and says how many. */
  function FWrite(w: Writer, bytes: seq<bv8>): (res: (nat, Writer))
    ensures res.0 <= |bytes|
    ensures res.1.written == w.written + bytes[..res.0]
    ensures res.1.seekable == w.seekable
    ensures w.quota == [] ==> res == (|bytes|, w.(written := w.written + bytes))
  {
    if w.quota == [] then (|bytes|, w.(written := w.written + bytes))
    else
      var k := if w.quota[0] < |bytes| then w.quota[0] else |bytes|;
      (k, Writer(w.written + bytes[..k], w.quota[1..], w.seekable))
  }

  /** A stdio stream: both sides, as one object so that `out == src` can hold. */
  class File {
    var chunks: seq<Chunk>
    var eof: bool
    var written: seq<bv8>
    var quota: seq<nat>
    var seekable: bool

    function Reading(): Reader
      reads this
    {
      Reader(chunks, eof)
    }

    function Writing(): Writer
      reads this
    {
      Writer(written, quota, seekable)
    }

    constructor (r: Reader, w: Writer)
      ensures Reading() == r && Writing() == w
    {
      chunks, eof := r.chunks, r.eof;
      written, quota, seekable := w.written, w.quota, w.seekable;
    }

    /** fread(buf, 1, BUFFER_SIZE, this). */
    method Read(buf: array<bv8>) returns (n: nat)
      requires buf.Length == BUFFER_SIZE && Bounded(Reading())
      modifies this, buf
      ensures n <= BUFFER_SIZE && Bounded(Reading()) && Writing() == old(Writing())
      ensures (buf[..n], Reading()) == FRead(old(Reading()))
      ensures buf[n..] == old(buf[n..])
    {
      if chunks == [] {
        eof := true;
        assert buf[..0] == [];
        return 0;
      }
      var c := chunks[0];
      n := |c.data|;
      forall j | 0 <= j < n {
        buf[j] := c.data[j];
      }
      chunks, eof := chunks[1..], c.hitEnd;
      assert buf[..n] == c.data;
      assert forall j :: n <= j < buf.Length ==> buf[j] == old(buf[j]);
      assert buf[n..] == old(buf[n..]);
    }

    /** fwrite(buf, 1, count, this). */
    method Write(buf: array<bv8>, count: nat) returns (k: nat)
      requires count <= buf.Length
      modifies this
      ensures Reading() == old(Reading())
      ensures (k, Writing()) == FWrite(old(Writing()), buf[..count])
    {
      var bytes := buf[..count];
      if quota == [] {
        written := written + bytes;
        return count;
      }
      k := if quota[0] < count then quota[0] else count;
      written, quota := written + bytes[..k], quota[1..];
    }

    /**
     * fseek(this, -read, SEEK_CUR) >= 0. Positions are not modelled; like
     * fseek, a successful seek clears the end-of-file flag.
     */
    method Seek() returns (ok: bool)
      modifies this
      ensures ok == seekable && Writing() == old(Writing())
      ensures Reading() == if ok then old(Reading()).(eof := false) else old(Reading())
    {
      ok := seekable;
      if ok {
        eof := false;
      }
    }
  }

  /** The write side of an optional stream. */
  function Sink(f: File?): Option<Writer>
    reads f
  {
    if f == null then None else Some(f.Writing())
  }

  /** context_t: the shared block buffer and the `-o` stream, if any. */
  class Context {
    var buf: array<bv8>
    var output: File?

    constructor (buf: array<bv8>, output: File?)
      ensures this.buf == buf && this.output == output
    {
      this.buf, this.output := buf, output;
    }
  }

  // ---------------------------------------------------------------------------
  // write_fully
  // ---------------------------------------------------------------------------

  /**
   * write_fully from `offset` on, as written: every retry offers the
   * `|block| - offset` bytes from the START of the block.
   */
  function WriteFrom(w: Writer, block: seq<bv8>, offset: nat): (r: (bool, Writer))
    requires offset <= |block|
    ensures r.0 ==> |r.1.written| == |w.written| + |block| - offset
    ensures w.written <= r.1.written
    ensures r.1.seekable == w.seekable
    decreases |block| - offset
  {
    if offset == |block| then (true, w)
    else
      var (k, w1) := FWrite(w, block[..|block| - offset]);
      if k == 0 then (false, w1) else WriteFrom(w1, block, offset + k)
  }

  /** write_fully(ctx, out, count): the first `count` buffer bytes. */
  method WriteFully(buf: array<bv8>, out: File, count: nat) returns (ok: bool)
    requires count <= buf.Length
    modifies out
    ensures out.Reading() == old(out.Reading())
    ensures (ok, out.Writing()) == WriteFrom(old(out.Writing()), buf[..count], 0)
  {
    ghost var block := buf[..count];
    ghost var spec := WriteFrom(out.Writing(), block, 0);
    var offset := 0;
    while offset < count
      invariant offset <= count
      invariant out.Reading() == old(out.Reading())
      invariant spec == WriteFrom(out.Writing(), block, offset)
      decreases count - offset
    {
      var written := out.Write(buf, count - offset);
      assert buf[..count - offset] == block[..|block| - offset];
      if written == 0 {
        return false;
      }
      offset := offset + written;
    }
    return true;
  }

  /** A stream that takes every write whole gets the block appended, once. */
  lemma WriteFullyWhole(w: Writer, block: seq<bv8>)
    requires w.quota == []
    ensures WriteFrom(w, block, 0) == (true, w.(written := w.written + block))
  {
    if block != [] {
      var w1 := w.(written := w.written + block);
      assert block[..|block| - 0] == block;
      assert FWrite(w, block) == (|block|, w1);
      assert WriteFrom(w1, block, |block|) == (true, w1);
    } else {
      assert w.written + block == w.written;
    }
  }

  /** A first `fwrite` that takes nothing fails the whole write. */
  lemma WriteFullyFails(w: Writer, block: seq<bv8>)
    requires block != [] && w.quota != [] && w.quota[0] == 0
    ensures !WriteFrom(w, block, 0).0
  {
  }

  /**
   * A short write followed by a whole one: the retry sends the block's first
   * bytes again, so the stream receives `block[..k] + block[..|block| - k]`
   * rather than the block itself.
   */
  lemma WriteFullyRestartsAtStart(w: Writer, block: seq<bv8>, k: nat)
    requires 0 < k < |block| && w.quota == [k]
    ensures WriteFrom(w, block, 0)
         == (true, Writer(w.written + block[..k] + block[..|block| - k], [], w.seekable))
  {
    var w1 := Writer(w.written + block[..k], [], w.seekable);
    var w2 := w1.(written := w1.written + block[..|block| - k]);
    assert block[..|block| - 0] == block;
    assert FWrite(w, block) == (k, w1);
    assert FWrite(w1, block[..|block| - k]) == (|block| - k, w2);
    assert WriteFrom(w2, block, |block|) == (true, w2);
    assert WriteFrom(w1, block, k) == (true, w2);
  }

  /** The concatenation of the prefixes of `block` of the lengths `ks`, in order. */
  function Prefixes(block: seq<bv8>, ks: seq<nat>): seq<bv8>
    requires forall i :: 0 <= i < |ks| ==> ks[i] <= |block|
  {
    if ks == [] then [] else block[..ks[0]] + Prefixes(block, ks[1..])
  }

  /**
   * Whatever each `fwrite` accepts, write_fully appends only prefixes of the
   * block: every call, first or retry, offers bytes from the block's start.
   */
  lemma {:induction false} WriteFromPrefixes(w: Writer, block: seq<bv8>, offset: nat) returns (ks: seq<nat>)
    requires offset <= |block|
    ensures forall i :: 0 <= i < |ks| ==> ks[i] <= |block| - offset
    ensures WriteFrom(w, block, offset).1.written == w.written + Prefixes(block, ks)
    decreases |block| - offset
  {
    if offset == |block| {
      ks := [];
      assert w.written + [] == w.written;
    } else {
      var (k, w1) := FWrite(w, block[..|block| - offset]);
      var rest := [];
      if k != 0 {
        rest := WriteFromPrefixes(w1, block, offset + k);
      } else {
        assert w1.written + [] == w1.written;
      }
      ks := [k] + rest;
      assert ks[0] == k && ks[1..] == rest;
      Associate(w.written, block[..k], Prefixes(block, rest));
    }
  }

  lemma Associate(a: seq<bv8>, b: seq<bv8>, c: seq<bv8>)
    ensures a + b + c == a + (b + c)
  {
  }

  // ---------------------------------------------------------------------------
  // process_data
  // ---------------------------------------------------------------------------

  /** The three streams `process_data` touches: `in`'s read side, `ctx.output` and `out`. */
  datatype Streams = Streams(input: Reader, output: Option<Writer>, out: Option<Writer>)

  /** write_fully on an optional stream; no stream is no write. */
  function WriteOpt(w: Option<Writer>, block: seq<bv8>): (r: (bool, Option<Writer>))
    ensures w.None? <==> r.1.None?
    ensures w.None? ==> r.0
    ensures w.Some? ==> w.value.written <= r.1.value.written
    ensures w.Some? && r.0 ==> |r.1.value.written| == |w.value.written| + |block|
    ensures w.Some? ==> r.1.value.seekable == w.value.seekable
  {
    if w.None? then (true, None)
    else
      var (ok, w1) := WriteFrom(w.value, block, 0);
      (ok, Some(w1))
  }

  /** The outcome of one pass of the `process_data` loop. */
  datatype Step = Stop(streams: Streams) | Continue(gen: GenState, streams: Streams)

  /** The streams `process_data` accepts: bounded reads, and `out` present when it is `in`. */
  predicate DataReady(s: Streams, same: bool)
  {
    Bounded(s.input) && (same ==> s.out.Some?)
  }

  /**
   * The second half of a pass: move back over the block when `out` is `in`
   * (`same`), which clears `in`'s end-of-file flag, then write it fully to
   * `ctx.output` and to `out`; false on the first failure.
   */
  function WriteStep(s: Streams, block: seq<bv8>, same: bool): (r: (bool, Streams))
    requires same ==> s.out.Some?
    ensures r.1.input == if same && s.out.value.seekable then s.input.(eof := false) else s.input
    ensures r.0 && same ==> s.out.value.seekable
    ensures r.1.output.Some? == s.output.Some? && r.1.out.Some? == s.out.Some?
    ensures s.output.Some? ==> s.output.value.written <= r.1.output.value.written
    ensures s.out.Some? ==> s.out.value.written <= r.1.out.value.written
    ensures r.0 && s.output.Some? ==> |r.1.output.value.written| == |s.output.value.written| + |block|
    ensures r.0 && s.out.Some? ==> |r.1.out.value.written| == |s.out.value.written| + |block|
  {
    if same && !s.out.value.seekable then (false, s)
    else
      var in1 := if same then s.input.(eof := false) else s.input;
      var (ok1, o1) := WriteOpt(s.output, block);
      if !ok1 then (false, Streams(in1, o1, s.out))
      else
        var (ok2, o2) := WriteOpt(s.out, block);
        (ok2, Streams(in1, o1, o2))
  }

  /**
   * One pass of the `process_data` loop with the generator in state `g`: read a
   * block; no bytes stop the loop; otherwise transform the block and write it.
   */
  function BlockStep(g: GenState, s: Streams, same: bool): (r: Step)
    requires ValidState(g) && DataReady(s, same)
    ensures r.streams.output.Some? == s.output.Some? && r.streams.out.Some? == s.out.Some?
    ensures r.Continue? ==> ValidState(r.gen) && DataReady(r.streams, same)
    ensures r.Continue? ==> |r.streams.input.chunks| < |s.input.chunks|
    ensures r.Continue? && same ==> !r.streams.input.eof
  {
    var (d, in1) := FRead(s.input);
    if |d| == 0 then Stop(s.(input := in1))
    else
      assert Bounded(in1) by {
        forall k | 0 <= k < |in1.chunks| ensures |in1.chunks[k].data| <= BUFFER_SIZE {
          assert in1.chunks[k] == s.input.chunks[k + 1];
        }
      }
      var (ok, s1) := WriteStep(s.(input := in1), Stream(g, d), same);
      if ok then Continue(After(g, |d|), s1) else Stop(s1)
  }

  /**
   * The loop of `process_data` with the generator in state `g`: it runs until
   * the end-of-file flag is set, and any failed pass ends it with IO_ERROR.
   */
  function DataFrom(g: GenState, s: Streams, same: bool): (r: (Status, Streams))
    requires ValidState(g) && DataReady(s, same)
    ensures r.0 == OK || r.0 == IO_ERROR
    ensures r.0 == OK ==> r.1.input.eof
    ensures r.1.output.Some? == s.output.Some? && r.1.out.Some? == s.out.Some?
    decreases |s.input.chunks|
  {
    if s.input.eof then (OK, s)
    else
      match BlockStep(g, s, same)
      case Stop(s1) => (IO_ERROR, s1)
      case Continue(g1, s1) => DataFrom(g1, s1, same)
  }

  /** The streams of a `process_data` call, as values. */
  function StreamsOf(ctx: Context, out: File?, src: File): Streams
    reads ctx, ctx.output, out, src
  {
    Streams(src.Reading(), Sink(ctx.output), Sink(out))
  }

  /** The frame of a `process_data` call: distinct buffer, generator and streams. */
  ghost predicate Separate(ctx: Context, out: File?, src: File, crypto: Crypto)
    reads ctx, crypto
  {
    ctx.buf.Length == BUFFER_SIZE && ctx.buf as object != crypto.lgc &&
    (ctx.output != null ==> ctx.output != src && ctx.output != out)
  }

  /** The seek and the two writes that end a pass of the `process_data` loop. */
  method WriteBlock(ctx: Context, out: File?, src: File, count: nat) returns (ok: bool)
    requires count <= ctx.buf.Length
    requires ctx.output != null ==> ctx.output != src && ctx.output != out
    modifies out, ctx.output
    ensures (ok, StreamsOf(ctx, out, src)) == WriteStep(old(StreamsOf(ctx, out, src)), ctx.buf[..count], out == src)
  {
    ghost var s := StreamsOf(ctx, out, src);
    ghost var block := ctx.buf[..count];
    if out == src {
      ok := out.Seek();
      if !ok {
        return;
      }
    }
    ghost var o1 := WriteOpt(s.output, block);
    if ctx.output != null {
      ok := WriteFully(ctx.buf, ctx.output, count);
      if !ok {
        return;
      }
    }
    assert Sink(ctx.output) == o1.1;
    ghost var o2 := WriteOpt(s.out, block);
    ok := true;
    if out != null {
      ok := WriteFully(ctx.buf, out, count);
    }
    assert Sink(out) == o2.1;
  }

  /** One pass of the `process_data` loop: the body of its `while`. */
  method ProcessBlock(ctx: Context, out: File?, src: File, crypto: Crypto) returns (ok: bool)
    requires crypto.Valid() && Separate(ctx, out, src, crypto)
    requires !src.eof && Bounded(src.Reading())
    modifies ctx.buf, src, out, ctx.output, crypto, crypto.lgc
    ensures crypto.Valid() && crypto.lgc == old(crypto.lgc)
    ensures var r := BlockStep(old(crypto.State()), old(StreamsOf(ctx, out, src)), out == src);
      r.streams == StreamsOf(ctx, out, src) &&
      (ok <==> r.Continue?) && (ok ==> r.gen == crypto.State())
  {
    ghost var g := crypto.State();
    ghost var s := StreamsOf(ctx, out, src);
    var read := src.Read(ctx.buf);
    if read == 0 {
      return false;
    }
    ghost var d := FRead(s.input).0;
    TransformBlock(crypto, ctx.buf, read);
    assert ctx.buf[..read] == Stream(g, d);
    ok := WriteBlock(ctx, out, src, read);
  }

  /**
   * process_data(ctx, out, in, settings): transform `in` block by block into
   * `ctx.output` and then `out`, with a fresh generator keyed by `key`.
   */
  method ProcessData(ctx: Context, out: File?, src: File, key: bv64) returns (st: Status)
    requires ctx.buf.Length == BUFFER_SIZE && Bounded(src.Reading())
    requires ctx.output != null ==> ctx.output != src && ctx.output != out
    modifies ctx.buf, src, out, ctx.output
    ensures (st, StreamsOf(ctx, out, src)) == DataFrom(Init(key), old(StreamsOf(ctx, out, src)), out == src)
  {
    var crypto := new Crypto(key);
    ghost var spec := DataFrom(crypto.State(), StreamsOf(ctx, out, src), out == src);
    while !src.eof
      invariant crypto.Valid() && fresh(crypto) && fresh(crypto.lgc)
      invariant Bounded(src.Reading())
      invariant spec == DataFrom(crypto.State(), StreamsOf(ctx, out, src), out == src)
      decreases |src.chunks|
    {
      var ok := ProcessBlock(ctx, out, src, crypto);
      if !ok {
        return IO_ERROR;
      }
    }
    return OK;
  }

  // ---------------------------------------------------------------------------
  // What process_data computes
  // ---------------------------------------------------------------------------

  /** The bytes of a sequence of reads, in order. */
  function Flatten(chunks: seq<Chunk>): (d: seq<bv8>)
  {
    if chunks == [] then [] else chunks[0].data + Flatten(chunks[1..])
  }

  /** A stream that takes every write whole (or no stream at all). */
  predicate TakesAll(w: Option<Writer>)
  {
    w.None? || w.value.quota == []
  }

  /** `bytes` appended to an optional stream. */
  function Appended(w: Option<Writer>, bytes: seq<bv8>): (r: Option<Writer>)
    ensures r.Some? == w.Some?
  {
    if w.None? then None else Some(w.value.(written := w.value.written + bytes))
  }

  /** Streams that never fail a seek or a write. */
  predicate Reliable(s: Streams, same: bool)
  {
    TakesAll(s.output) && TakesAll(s.out) && (same ==> s.out.Some? && s.out.value.seekable)
  }

  /** With reliable streams a non-empty read goes through: the block reaches both sinks. */
  lemma ReliableBlockStep(g: GenState, s: Streams, same: bool)
    requires ValidState(g) && DataReady(s, same) && Reliable(s, same)
    requires s.input.chunks != [] && s.input.chunks[0].data != []
    ensures var c := s.input.chunks[0];
      var block := Stream(g, c.data);
      BlockStep(g, s, same)
        == Continue(After(g, |c.data|),
                    Streams(Reader(s.input.chunks[1..], c.hitEnd && !same),
                            Appended(s.output, block), Appended(s.out, block)))
  {
    var c := s.input.chunks[0];
    var block := Stream(g, c.data);
    if s.output.Some? {
      WriteFullyWhole(s.output.value, block);
    }
    if s.out.Some? {
      WriteFullyWhole(s.out.value, block);
    }
  }

  /** Appending to appended streams appends the concatenation. */
  lemma AppendedTwice(w: Option<Writer>, a: seq<bv8>, b: seq<bv8>)
    ensures Appended(Appended(w, a), b) == Appended(w, a + b)
  {
    if w.Some? {
      assert w.value.written + a + b == w.value.written + (a + b);
    }
  }

  /**
   * A read script cut into non-empty blocks of at most BUFFER_SIZE bytes whose
   * last read, and only that one, sets the end-of-file flag.
   */
  predicate WellFormed(chunks: seq<Chunk>)
  {
    |chunks| > 0 &&
    (forall k :: 0 <= k < |chunks| ==> 0 < |chunks[k].data| <= BUFFER_SIZE) &&
    (forall k :: 0 <= k < |chunks| ==> (chunks[k].hitEnd <==> k == |chunks| - 1))
  }

  /**
   * The whole input, however it is cut into blocks, reaches every sink
   * transformed by one continuous key stream. The result is OK, except in
   * place: there the last seek clears the end-of-file flag the last read set,
   * one more read delivers nothing, and the result is IO_ERROR.
   */
  lemma {:induction false} DataWholeInput(g: GenState, s: Streams, same: bool)
    requires ValidState(g) && Reliable(s, same)
    requires !s.input.eof && WellFormed(s.input.chunks)
    ensures DataReady(s, same)
    ensures var t := Stream(g, Flatten(s.input.chunks));
      DataFrom(g, s, same)
        == (if same then IO_ERROR else OK, Streams(Reader([], true), Appended(s.output, t), Appended(s.out, t)))
    decreases |s.input.chunks|
  {
    var chunks := s.input.chunks;
    var c := chunks[0];
    var block := Stream(g, c.data);
    ReliableBlockStep(g, s, same);
    var g1 := After(g, |c.data|);
    var s1 := Streams(Reader(chunks[1..], c.hitEnd && !same), Appended(s.output, block), Appended(s.out, block));
    assert DataFrom(g, s, same) == DataFrom(g1, s1, same);
    if |chunks| == 1 {
      assert same ==> DataFrom(g1, s1, same) == (IO_ERROR, s1.(input := Reader([], true)));
      assert Flatten(chunks) == c.data + [];
      assert c.data + [] == c.data;
    } else {
      assert !chunks[0].hitEnd;
      var rest := Flatten(chunks[1..]);
      assert WellFormed(chunks[1..]) by {
        forall k | 0 <= k < |chunks| - 1
          ensures 0 < |chunks[1..][k].data| <= BUFFER_SIZE
          ensures chunks[1..][k].hitEnd <==> k == |chunks| - 2
        {
          assert chunks[1..][k] == chunks[k + 1];
        }
      }
      DataWholeInput(g1, s1, same);
      StreamAppend(g, c.data, rest);
      AppendedTwice(s.output, block, Stream(g1, rest));
      AppendedTwice(s.out, block, Stream(g1, rest));
    }
  }

  /**
   * A second run with the same key over what the first run wrote gives the
   * original bytes back, whatever the blocks of either run.
   */
  lemma ProcessDataTwiceRestores(key: bv64, first: seq<Chunk>, second: seq<Chunk>, sink: Writer)
    requires WellFormed(first) && WellFormed(second) && sink.quota == [] && sink.written == []
    requires Flatten(second) == Transform(key, Flatten(first))
    ensures DataReady(Streams(Reader(first, false), None, Some(sink)), false)
    ensures DataReady(Streams(Reader(second, false), None, Some(sink)), false)
    ensures DataFrom(Init(key), Streams(Reader(first, false), None, Some(sink)), false).1.out.value.written
         == Flatten(second)
    ensures DataFrom(Init(key), Streams(Reader(second, false), None, Some(sink)), false).1.out.value.written
         == Flatten(first)
  {
    DataWholeInput(Init(key), Streams(Reader(first, false), None, Some(sink)), false);
    DataWholeInput(Init(key), Streams(Reader(second, false), None, Some(sink)), false);
    TransformInvolution(key, Flatten(first));
  }

  /**
   * fread on a regular file: full blocks while at least BUFFER_SIZE bytes are
   * left; a shorter rest comes in one read that sets the end-of-file flag; an
   * exhausted file delivers nothing.
   */
  function FileChunks(content: seq<bv8>): (chunks: seq<Chunk>)
    ensures forall k :: 0 <= k < |chunks| ==> |chunks[k].data| <= BUFFER_SIZE
    decreases |content|
  {
    if |content| < BUFFER_SIZE then (if content == [] then [] else [Chunk(content, true)])
    else [Chunk(content[..BUFFER_SIZE], false)] + FileChunks(content[BUFFER_SIZE..])
  }

  /** Whether `size` is a whole number of blocks, by counting blocks off. */
  predicate Aligned(size: nat)
    decreases size
  {
    if size < BUFFER_SIZE then size == 0 else Aligned(size - BUFFER_SIZE)
  }

  /** Counting blocks off agrees with the remainder modulo BUFFER_SIZE. */
  lemma {:induction false} AlignedIsModulo(size: nat)
    ensures Aligned(size) <==> size % BUFFER_SIZE == 0
    decreases size
  {
    if size >= BUFFER_SIZE {
      AlignedIsModulo(size - BUFFER_SIZE);
    }
  }

  /**
   * A regular file read through reliable streams: every sink receives the whole
   * content transformed, and the status is OK exactly when the size is not a
   * multiple of BUFFER_SIZE and the run is not in place. When the size is such a
   * multiple (the empty file included), the last full block does not set the
   * end-of-file flag, the next read delivers nothing and the result is
   * IO_ERROR; in place, the seek clears the flag the last read set, with the
   * same result.
   */
  lemma {:induction false} RegularFile(g: GenState, content: seq<bv8>, s: Streams, same: bool)
    requires ValidState(g) && Reliable(s, same) && s.input == Reader(FileChunks(content), false)
    ensures DataReady(s, same)
    ensures var t := Stream(g, content);
      DataFrom(g, s, same)
        == (if same || Aligned(|content|) then IO_ERROR else OK,
            Streams(Reader([], true), Appended(s.output, t), Appended(s.out, t)))
    decreases |content|
  {
    if |content| < BUFFER_SIZE {
      RegularFileRest(g, content, s, same);
    } else {
      var head, tail := content[..BUFFER_SIZE], content[BUFFER_SIZE..];
      assert s.input.chunks[0] == Chunk(head, false);
      assert s.input.chunks[1..] == FileChunks(tail);
      ReliableBlockStep(g, s, same);
      var g1 := After(g, BUFFER_SIZE);
      var block := Stream(g, head);
      var s1 := Streams(Reader(FileChunks(tail), false), Appended(s.output, block), Appended(s.out, block));
      assert DataFrom(g, s, same) == DataFrom(g1, s1, same);
      RegularFile(g1, tail, s1, same);
      SplitAt(content, BUFFER_SIZE);
      StreamAppend(g, head, tail);
      AppendedTwice(s.output, block, Stream(g1, tail));
      AppendedTwice(s.out, block, Stream(g1, tail));
      assert |tail| == |content| - BUFFER_SIZE;
    }
  }

  /** `RegularFile` for less than one block: empty, or one read that sets the flag. */
  lemma RegularFileRest(g: GenState, content: seq<bv8>, s: Streams, same: bool)
    requires ValidState(g) && Reliable(s, same) && s.input == Reader(FileChunks(content), false)
    requires |content| < BUFFER_SIZE
    ensures DataReady(s, same)
    ensures var t := Stream(g, content);
      DataFrom(g, s, same)
        == (if same || Aligned(|content|) then IO_ERROR else OK,
            Streams(Reader([], true), Appended(s.output, t), Appended(s.out, t)))
  {
    if content == [] {
      assert Stream(g, content) == [];
      assert Appended(s.output, []) == s.output by {
        if s.output.Some? { assert s.output.value.written + [] == s.output.value.written; }
      }
      assert Appended(s.out, []) == s.out by {
        if s.out.Some? { assert s.out.value.written + [] == s.out.value.written; }
      }
    } else {
      assert Flatten(s.input.chunks) == content + [];
      assert content + [] == content;
      DataWholeInput(g, s, same);
    }
  }

  /** The bytes a sink holds beyond what it held before, when it held that before. */
  predicate GrewBy(before: Option<Writer>, after: Option<Writer>, n: int)
  {
    before.Some? && after.Some? ==> |after.value.written| == |before.value.written| + n
  }

  /**
   * Whatever the sinks accept per `fwrite`, a run that ends OK has given each
   * sink exactly as many bytes as it read.
   */
  lemma {:induction false} DataLengths(g: GenState, s: Streams, same: bool)
    requires ValidState(g) && DataReady(s, same)
    ensures var r := DataFrom(g, s, same);
      var n := |Flatten(s.input.chunks)| - |Flatten(r.1.input.chunks)|;
      r.0 == OK ==> GrewBy(s.output, r.1.output, n) && GrewBy(s.out, r.1.out, n)
    decreases |s.input.chunks|
  {
    if !s.input.eof {
      var step := BlockStep(g, s, same);
      if step.Continue? {
        var chunks := s.input.chunks;
        assert Flatten(chunks) == chunks[0].data + Flatten(chunks[1..]);
        assert step.streams.input.chunks == chunks[1..];
        DataLengths(step.gen, step.streams, same);
      }
    }
  }

  /**
   * In place a run never ends OK: every pass that goes through seeks back,
   * which clears the end-of-file flag, so the loop ends only on a read that
   * delivers nothing or on a failure.
   */
  lemma {:induction false} InPlaceNeverOK(g: GenState, s: Streams)
    requires ValidState(g) && DataReady(s, true) && !s.input.eof
    ensures DataFrom(g, s, true).0 == IO_ERROR
    decreases |s.input.chunks|
  {
    match BlockStep(g, s, true)
    case Stop(_) =>
    case Continue(g1, s1) => InPlaceNeverOK(g1, s1);
  }

  /** A read that delivers nothing ends the run with IO_ERROR and nothing written. */
  lemma EmptyReadFails(g: GenState, s: Streams, same: bool)
    requires ValidState(g) && DataReady(s, same) && !s.input.eof
    requires s.input.chunks == [] || s.input.chunks[0].data == []
    ensures DataFrom(g, s, same) == (IO_ERROR, s.(input := FRead(s.input).1))
  {
  }

  /** When `out` is `in` and the seek fails, the block is not written anywhere. */
  lemma SeekFailureFails(g: GenState, s: Streams)
    requires ValidState(g) && DataReady(s, true) && !s.input.eof
    requires s.input.chunks != [] && s.input.chunks[0].data != [] && !s.out.value.seekable
    ensures DataFrom(g, s, true) == (IO_ERROR, s.(input := FRead(s.input).1))
  {
  }

  /**
   * `ctx.output` is written before `out`: when the first write to `ctx.output`
   * fails, the run ends with IO_ERROR and `out` is left as it was.
   */
  lemma OutputFailsFirst(g: GenState, s: Streams, same: bool)
    requires ValidState(g) && DataReady(s, same) && !s.input.eof
    requires s.input.chunks != [] && s.input.chunks[0].data != []
    requires same ==> s.out.value.seekable
    requires s.output.Some? && s.output.value.quota != [] && s.output.value.quota[0] == 0
    ensures DataFrom(g, s, same).0 == IO_ERROR
    ensures DataFrom(g, s, same).1.out == s.out
  {
    var block := Stream(g, s.input.chunks[0].data);
    WriteFullyFails(s.output.value, block);
  }

  /** A sequence is its prefix followed by its suffix. */
  lemma SplitAt(c: seq<bv8>, k: nat)
    requires k <= |c|
    ensures c[..k] + c[k..] == c
  {
  }


  // ---------------------------------------------------------------------------
  // stat_file
  // ---------------------------------------------------------------------------

  /** file_type. */
  datatype FileType = BLOCK | REGULAR | DIR | UNSUPPORTED | ERROR

  /** The file-type bits of `st_mode` and the kinds `stat_file` names (POSIX values). */
  const S_IFMT: bv32 := 0xF000
  const S_IFSOCK: bv32 := 0xC000
  const S_IFLNK: bv32 := 0xA000
  const S_IFREG: bv32 := 0x8000
  const S_IFBLK: bv32 := 0x6000
  const S_IFDIR: bv32 := 0x4000
  const S_IFCHR: bv32 := 0x2000
  const S_IFIFO: bv32 := 0x1000

  /**
   * stat_file: `None` when `stat` fails, otherwise the type read from the
   * file-type bits of the mode.
   */
  function StatFile(mode: Option<bv32>): (t: FileType)
    ensures t == ERROR <==> mode.None?
    ensures t == BLOCK <==> mode.Some? && mode.value & S_IFMT == S_IFBLK
    ensures t == REGULAR <==> mode.Some? && mode.value & S_IFMT == S_IFREG
    ensures t == DIR <==> mode.Some? && mode.value & S_IFMT == S_IFDIR
  {
    if mode.None? then ERROR
    else
      var kind := mode.value & S_IFMT;
      if kind == S_IFBLK then BLOCK
      else if kind == S_IFREG then REGULAR
      else if kind == S_IFDIR then DIR
      else UNSUPPORTED
  }

  /** Only the file-type bits count: permission and other bits never change the type. */
  lemma StatFileIgnoresOtherBits(kind: bv32, bits: bv32)
    requires kind & S_IFMT == kind && bits & S_IFMT == 0
    ensures StatFile(Some(kind | bits)) == StatFile(Some(kind))
  {
    assert (kind | bits) & S_IFMT == kind;
  }

  /** Pipes, links, sockets and character devices are unsupported. */
  lemma OtherKindsUnsupported(kind: bv32)
    requires kind == S_IFIFO || kind == S_IFLNK || kind == S_IFSOCK || kind == S_IFCHR
    ensures StatFile(Some(kind)) == UNSUPPORTED
  {
  }

  // ---------------------------------------------------------------------------
  // process_regular_file: the mode choice
  // ---------------------------------------------------------------------------

  /**
   * How `process_regular_file` handles a file: read it into the sinks
   * (`-d` or `-o`), rewrite it in place (`-i`), or write a temporary file.
   */
  datatype Mode = ToSinks | InPlace | ViaTempFile

  /** The mode, in the order `process_regular_file` tests the settings. */
  function ChooseMode(settings: SettingsValue, hasOutput: bool): (m: Mode)
    ensures m == ToSinks <==> settings.toStdout || hasOutput
    ensures m == InPlace <==> !settings.toStdout && !hasOutput && settings.inplace
    ensures m == ViaTempFile <==> !settings.toStdout && !hasOutput && !settings.inplace
  {
    if settings.toStdout || hasOutput then ToSinks
    else if settings.inplace then InPlace
    else ViaTempFile
  }

  // ---------------------------------------------------------------------------
  // process_item and process_files
  // ---------------------------------------------------------------------------

  /**
   * A path as `process_item` finds it: its mode (`None` when `stat` fails),
   * whether `opendir` succeeds, the directory entries in `readdir` order, and
   * the status `process_regular_file` returns for it.
   */
  datatype Node = Node(path: ByteString, mode: Option<bv32>, listable: bool, entries: seq<Node>, fileResult: Status)

  /**
   * process_item: the status for one path. It is OK only for a regular file, a
   * block device under `-i`, or a listable directory under `-r`.
   */
  function Outcome(n: Node, settings: SettingsValue): (r: Status)
    ensures r == OK ==> StatFile(n.mode) != UNSUPPORTED && StatFile(n.mode) != ERROR
    ensures r == OK && StatFile(n.mode) == BLOCK ==> settings.inplace
    ensures r == OK && StatFile(n.mode) == DIR ==> settings.recursive && n.listable
    decreases n, 1
  {
    match StatFile(n.mode)
    case REGULAR => n.fileResult
    case BLOCK => if !settings.inplace then BAD_STATE else n.fileResult
    case DIR =>
      if !settings.recursive then BAD_STATE
      else if !n.listable then IO_ERROR
      else EntriesOutcome(n, 0, settings)
    case UNSUPPORTED => BAD_STATE
    case ERROR => IO_ERROR
  }

  /** The loop over a directory's entries from entry `k` on: OK exactly when each of them is. */
  function EntriesOutcome(d: Node, k: nat, settings: SettingsValue): (r: Status)
    requires k <= |d.entries|
    ensures r == OK <==> forall j :: k <= j < |d.entries| ==> Outcome(d.entries[j], settings) == OK
    decreases d, 0, |d.entries| - k
  {
    if k == |d.entries| then OK
    else
      var r := Outcome(d.entries[k], settings);
      if r != OK then r else EntriesOutcome(d, k + 1, settings)
  }

  /** The first status that is not OK, or OK when there is none. */
  function FirstFailure(results: seq<Status>): (r: Status)
    ensures r == OK <==> forall i :: 0 <= i < |results| ==> results[i] == OK
    ensures r != OK ==> exists i :: 0 <= i < |results| && results[i] == r &&
                                    forall j :: 0 <= j < i ==> results[j] == OK
  {
    if results == [] then OK
    else if results[0] != OK then results[0]
    else
      var r := FirstFailure(results[1..]);
      assert forall i :: 1 <= i < |results| ==> results[i] == results[1..][i - 1];
      if r != OK then
        var i :| 0 <= i < |results[1..]| && results[1..][i] == r &&
                 forall j :: 0 <= j < i ==> results[1..][j] == OK;
        assert results[i + 1] == r;
        r
      else r
  }

  /** The statuses of a sequence of items, in order. */
  function Results(items: seq<Node>, settings: SettingsValue): (rs: seq<Status>)
    ensures |rs| == |items|
    ensures forall i :: 0 <= i < |items| ==> rs[i] == Outcome(items[i], settings)
  {
    seq(|items|, i requires 0 <= i < |items| => Outcome(items[i], settings))
  }

  /**
   * The loop over a directory's entries returns the first status that is not
   * OK, in `readdir` order, and OK when every entry succeeds.
   */
  lemma {:induction false} EntriesFirstFailure(d: Node, k: nat, settings: SettingsValue)
    requires k <= |d.entries|
    ensures EntriesOutcome(d, k, settings) == FirstFailure(Results(d.entries, settings)[k..])
    decreases |d.entries| - k
  {
    var rs := Results(d.entries, settings);
    if k < |d.entries| {
      EntriesFirstFailure(d, k + 1, settings);
      assert rs[k..][0] == rs[k] && rs[k..][1..] == rs[k + 1..];
    } else {
      assert rs[k..] == [];
    }
  }

  /** A directory, in recursive mode and listable, yields the first failure among its entries. */
  lemma DirectoryOutcome(d: Node, settings: SettingsValue)
    requires StatFile(d.mode) == DIR && settings.recursive && d.listable
    ensures Outcome(d, settings) == FirstFailure(Results(d.entries, settings))
  {
    EntriesFirstFailure(d, 0, settings);
    assert Results(d.entries, settings)[0..] == Results(d.entries, settings);
  }

  /** process_item(ctx, path, settings). */
  method ProcessItem(n: Node, settings: SettingsValue) returns (st: Status)
    ensures st == Outcome(n, settings)
    decreases n
  {
    var kind := StatFile(n.mode);
    match kind
    case REGULAR =>
      return n.fileResult;
    case BLOCK =>
      if !settings.inplace {
        return BAD_STATE;
      }
      return n.fileResult;
    case DIR =>
      if !settings.recursive {
        return BAD_STATE;
      }
      if !n.listable {
        return IO_ERROR;
      }
      for i := 0 to |n.entries|
        invariant EntriesOutcome(n, 0, settings) == EntriesOutcome(n, i, settings)
      {
        var res := ProcessItem(n.entries[i], settings);
        if res != OK {
          return res;
        }
      }
      return OK;
    case UNSUPPORTED =>
      return BAD_STATE;
    case ERROR =>
      return IO_ERROR;
  }

  /**
   * process_files(settings): each path in order, stopping at the first status
   * that is not OK; with no paths, standard input is transformed to standard
   * output. `items[i]` is what the file system holds at `settings.paths[i]`.
   */
  method ProcessFiles(settings: SettingsValue, items: seq<Node>, ctx: Context, stdin: File, stdout: File)
    returns (st: Status)
    requires |items| == |settings.paths|
    requires forall i :: 0 <= i < |items| ==> items[i].path == settings.paths[i]
    requires ctx.buf.Length == BUFFER_SIZE && Bounded(stdin.Reading())
    requires ctx.output != null ==> ctx.output != stdin && ctx.output != stdout
    modifies ctx.buf, stdin, stdout, ctx.output
    ensures settings.paths != [] ==> st == FirstFailure(Results(items, settings))
    ensures settings.paths == [] ==>
      (st, StreamsOf(ctx, stdout, stdin))
        == DataFrom(Init(settings.key), old(StreamsOf(ctx, stdout, stdin)), stdout == stdin)
  {
    if settings.paths != [] {
      st := OK;
      var i := 0;
      while i < |items|
        invariant 0 <= i <= |items| && st == OK
        invariant FirstFailure(Results(items, settings)) == FirstFailure(Results(items, settings)[i..])
      {
        st := ProcessItem(items[i], settings);
        ghost var rs := Results(items, settings)[i..];
        assert rs[0] == st && rs[1..] == Results(items, settings)[i + 1..];
        if st != OK {
          assert FirstFailure(rs) == st;
          return;
        }
        assert FirstFailure(rs) == FirstFailure(rs[1..]);
        i := i + 1;
      }
      assert Results(items, settings)[i..] == [];
    } else {
      st := ProcessData(ctx, stdout, stdin, settings.key);
    }
  }

  // ---------------------------------------------------------------------------
  // gen_temporary_name
  // ---------------------------------------------------------------------------

  /** What `stat` says about a name: it exists, or it fails with an errno. */
  datatype StatReply = Exists | Fails(errno: nat)

  /** ENOENT: no such file or directory. */
  const ENOENT: nat := 2

  /** The name is free: `stat` fails with ENOENT. */
  predicate Free(stat: ByteString -> StatReply, name: ByteString)
  {
    stat(name) == Fails(ENOENT)
  }

  const DIGITS: ByteString := "0123456789"

  /** std::to_string of a non-negative number: decimal, no leading zeros. */
  function Decimal(n: nat): (s: ByteString)
    ensures |s| > 0
    decreases n
  {
    if n < 10 then [DIGITS[n]] else Decimal(n / 10) + [DIGITS[n % 10]]
  }

  /** Reads a string of decimal digits back as a number. */
  function DecimalValue(s: ByteString): int
    decreases |s|
  {
    if s == [] then 0 else DecimalValue(s[..|s| - 1]) * 10 + (s[|s| - 1] as int - '0' as int)
  }

  /** Reading the decimal form back gives the number. */
  lemma {:induction false} DecimalRoundTrip(n: nat)
    ensures DecimalValue(Decimal(n)) == n
    decreases n
  {
    var s := Decimal(n);
    if n < 10 {
      assert s[..0] == [];
    } else {
      DecimalRoundTrip(n / 10);
      assert s[..|s| - 1] == Decimal(n / 10);
    }
  }

  /** `<file>.<i>.tmp`. */
  function TempName(file: ByteString, i: nat): (name: ByteString)
    ensures |name| > |file| + 5 && name[..|file|] == file && name[|file|] == '.'
    ensures name[|name| - 4..] == ".tmp"
  {
    file + "." + Decimal(i) + ".tmp"
  }

  /** Different counters give different names for the same file. */
  lemma TempNameInjective(file: ByteString, i: nat, j: nat)
    requires TempName(file, i) == TempName(file, j)
    ensures i == j
  {
    var a, b := Decimal(i), Decimal(j);
    var lo := |file| + 1;
    assert |a| == |b|;
    assert TempName(file, i)[lo..lo + |a|] == a;
    assert TempName(file, j)[lo..lo + |b|] == b;
    DecimalRoundTrip(i);
    DecimalRoundTrip(j);
  }

  /**
   * gen_temporary_name(file): the name for the smallest counter whose `stat`
   * fails with ENOENT; names that exist, or whose `stat` fails otherwise, are
   * skipped. The source loops forever when no name is free.
   */
  method GenTemporaryName(file: ByteString, stat: ByteString -> StatReply) returns (name: ByteString, ghost index: nat)
    requires exists k: nat :: Free(stat, TempName(file, k))
    ensures name == TempName(file, index) && Free(stat, name)
    ensures forall j :: 0 <= j < index ==> !Free(stat, TempName(file, j))
  {
    ghost var bound: nat :| Free(stat, TempName(file, bound));
    var i: nat := 0;
    while true
      invariant i <= bound
      invariant forall j :: 0 <= j < i ==> !Free(stat, TempName(file, j))
      decreases bound - i
    {
      var temp := file + "." + Decimal(i) + ".tmp";
      assert temp == TempName(file, i);
      i := i + 1;
      if stat(temp) == Fails(ENOENT) {
        return temp, i - 1;
      }
    }
  }
}
