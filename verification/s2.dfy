/** The s2 adapter: the level-to-strategy rule shared by block compression and streaming.
    The s2 encoders themselves are opaque. */
module S2 {
  import opened Wrappers
  import opened Strings
  import opened HttpContext
  import Middleware = Compress

  const S2Encoding: string := "s2"

  /** The two s2 encoders: the fast default and the slower, higher-ratio one. */
  datatype Strategy = Fast | Better

  /** The s2 block encoders, one per strategy. */
  datatype Library = Library(encode: seq<byte> -> seq<byte>, encodeBetter: seq<byte> -> seq<byte>)

  /** The options given to the streaming writer. */
  datatype WriterOption = WriterBetterCompression

  /** The strategy a level selects: level 0 and levels above 3 ask for better compression. */
  function StrategyFor(level: int): (s: Strategy)
    ensures s == Better <==> (level == 0 || level > 3)
    ensures level < 0 || 1 <= level <= 3 ==> s == Fast
  {
    if level == 0 || level > 3 then Better else Fast
  }

  /** Whether the request admits s2, by substring test on Accept-Encoding. */
  function Accept(c: Context): (r: (bool, string))
    ensures r.0 <==> Contains(Get(c.requestHeader, AcceptEncodingKey), S2Encoding)
    ensures r.1 == (if r.0 then S2Encoding else "")
  {
    Middleware.AcceptEncoding(c, S2Encoding)
  }

  /** Block compression with the encoder the level selects; it never fails. */
  function Compress(lib: Library, buf: seq<byte>, level: int): (r: Result<seq<byte>, Error>)
    ensures r.Success?
    ensures StrategyFor(level) == Better ==> r.value == lib.encodeBetter(buf)
    ensures StrategyFor(level) == Fast ==> r.value == lib.encode(buf)
  {
    Success(if StrategyFor(level) == Better then lib.encodeBetter(buf) else lib.encode(buf))
  }

  /** The options the streaming writer is created with for a level. */
  function Pipe(level: int): (opts: seq<WriterOption>)
    ensures WriterBetterCompression in opts <==> (level == 0 || level > 3)
    ensures |opts| <= 1
  {
    if StrategyFor(level) == Better then [WriterBetterCompression] else []
  }

  /** Streaming and block compression pick the same strategy for every level. */
  lemma PipeAgreesWithCompress(lib: Library, buf: seq<byte>, level: int)
    ensures WriterBetterCompression in Pipe(level) <==> StrategyFor(level) == Better
    ensures Compress(lib, buf, level).value ==
            (if WriterBetterCompression in Pipe(level) then lib.encodeBetter(buf) else lib.encode(buf))
  {
  }

  /** Compression depends on the level only through the strategy it selects. */
  lemma CompressDependsOnlyOnStrategy(lib: Library, buf: seq<byte>, l1: int, l2: int)
    requires StrategyFor(l1) == StrategyFor(l2)
    ensures Compress(lib, buf, l1) == Compress(lib, buf, l2)
  {
  }

  /** Levels 0, 4 and 100 give identical output; so do -1, 1 and 3. */
  lemma LevelExamples(lib: Library, buf: seq<byte>)
    ensures Compress(lib, buf, 0) == Compress(lib, buf, 4) == Compress(lib, buf, 100)
    ensures Compress(lib, buf, -1) == Compress(lib, buf, 1) == Compress(lib, buf, 3)
  {
  }

  /** The s2 adapter placed in the middleware's compressor list. The two source files are written
      against different framework contexts, so this composition exists only in the model. */
  function AsCompressor(lib: Library): Middleware.Compressor
  {
    Middleware.Compressor(Accept, (buf, level) => Compress(lib, buf, level))
  }

  /** With s2 first in the list and a request that admits it, an eligible response is always
      s2-encoded, whatever follows in the list: s2 never fails. */
  lemma S2FirstAlwaysWins(lib: Library, h: Middleware.Handler, c: Context)
    requires |h.compressors| > 0 && h.compressors[0] == AsCompressor(lib)
    requires Middleware.Eligible(h, c.response)
    requires Contains(Get(c.requestHeader, AcceptEncodingKey), S2Encoding)
    ensures Middleware.Apply(h, c).response ==
            Middleware.Encoded(c.response, S2Encoding, Compress(lib, c.response.body.value, h.level).value)
  {
  }
}
