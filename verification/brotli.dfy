/** The brotli adapter: quality clamping, the minimum-length default, the size-aware accept
    check and the error path of compression. The brotli encoder itself is opaque. */
module Brotli {
  import opened Wrappers
  import opened Strings
  import opened HttpContext
  import Middleware = Compress

  const BrEncoding: string := "br"
  const MaxBrQuality: int := 11
  const DefaultBrQuality: int := 6

  /** A brotli compressor's settings; zero (or less, for the level) means "use the default". */
  datatype BrCompressor = BrCompressor(level: int, minLength: int)

  /** The brotli writer at a given quality: `write` is the error its Write call returns, if any,
      and `flushed` is what the output buffer holds once the writer is closed. */
  datatype Writer = Writer(
    write: (int, seq<byte>) -> Option<Error>,
    flushed: (int, seq<byte>) -> seq<byte>)

  /** The quality used: non-positive levels take the default, levels above the maximum are
      lowered to it. */
  function GetLevel(b: BrCompressor): (q: int)
    ensures 1 <= q <= MaxBrQuality
    ensures b.level <= 0 ==> q == DefaultBrQuality
    ensures b.level > MaxBrQuality ==> q == MaxBrQuality
    ensures 1 <= b.level <= MaxBrQuality ==> q == b.level
  {
    var level := if b.level <= 0 then DefaultBrQuality else b.level;
    if level > MaxBrQuality then MaxBrQuality else level
  }

  /** The minimum body length: zero takes the framework's default, any other value (negative
      ones included) is used verbatim. */
  function GetMinLength(b: BrCompressor, defaultMinLength: int): (m: int)
    ensures b.minLength == 0 ==> m == defaultMinLength
    ensures b.minLength != 0 ==> m == b.minLength
  {
    if b.minLength == 0 then defaultMinLength else b.minLength
  }

  /** Whether brotli may encode a body of `bodySize` bytes for this request; a negative size is
      an unknown length, which is never refused for being short. */
  function Accept(b: BrCompressor, c: Context, bodySize: int, defaultMinLength: int): (r: (bool, string))
    ensures 0 <= bodySize < GetMinLength(b, defaultMinLength) ==> r == (false, "")
    ensures (bodySize < 0 || bodySize >= GetMinLength(b, defaultMinLength)) ==>
              (r.0 <==> Contains(Get(c.requestHeader, AcceptEncodingKey), BrEncoding))
    ensures r.0 ==> r.1 == BrEncoding
    ensures !r.0 ==> r.1 == ""
  {
    if bodySize >= 0 && bodySize < GetMinLength(b, defaultMinLength) then (false, "")
    else Middleware.AcceptEncoding(c, BrEncoding)
  }

  /** Compresses `buf` at the clamped quality: the write error is returned when there is one,
      otherwise the buffer the writer filled. */
  function Compress(b: BrCompressor, w: Writer, buf: seq<byte>): (r: Result<seq<byte>, Error>)
    ensures r.Failure? <==> w.write(GetLevel(b), buf).Some?
    ensures r.Failure? ==> r.error == w.write(GetLevel(b), buf).value
    ensures r.Success? ==> r.value == w.flushed(GetLevel(b), buf)
  {
    var q := GetLevel(b);
    match w.write(q, buf)
    case Some(e) => Failure(e)
    case None => Success(w.flushed(q, buf))
  }

  /** Clamping is idempotent: a level already clamped is kept as it is. */
  lemma GetLevelIdempotent(b: BrCompressor)
    ensures GetLevel(b.(level := GetLevel(b))) == GetLevel(b)
  {
  }

  /** For a body known to be short, the answer does not depend on the request at all. */
  lemma ShortBodyIgnoresHeader(b: BrCompressor, c1: Context, c2: Context, bodySize: int, defaultMinLength: int)
    requires 0 <= bodySize < GetMinLength(b, defaultMinLength)
    ensures Accept(b, c1, bodySize, defaultMinLength) == Accept(b, c2, bodySize, defaultMinLength)
  {
  }

  /** For an unknown or long enough body, two requests with the same Accept-Encoding value get
      the same answer: nothing else about them is looked at. */
  lemma AcceptDependsOnlyOnHeader(b: BrCompressor, c1: Context, c2: Context, bodySize: int, defaultMinLength: int)
    requires bodySize < 0 || bodySize >= GetMinLength(b, defaultMinLength)
    requires Get(c1.requestHeader, AcceptEncodingKey) == Get(c2.requestHeader, AcceptEncodingKey)
    ensures Accept(b, c1, bodySize, defaultMinLength) == Accept(b, c2, bodySize, defaultMinLength)
  {
  }

  /** A negative minimum length disables the size check: every size is judged by the header. */
  lemma NegativeMinLengthNeverRefusesBySize(b: BrCompressor, c: Context, bodySize: int, defaultMinLength: int)
    requires b.minLength < 0
    ensures Accept(b, c, bodySize, defaultMinLength).0 <==> Contains(Get(c.requestHeader, AcceptEncodingKey), BrEncoding)
  {
  }

  /** Compression depends on the configured level only through the clamped quality, so for
      example levels 0, -3 and 6 give the same result, as do 11 and 100. */
  lemma CompressDependsOnlyOnQuality(b1: BrCompressor, b2: BrCompressor, w: Writer, buf: seq<byte>)
    requires GetLevel(b1) == GetLevel(b2)
    ensures Compress(b1, w, buf) == Compress(b2, w, buf)
  {
  }

  /** Concrete instances: levels 0, -3 and 6 compress identically, and so do 11 and 100. */
  lemma DefaultAndOverMaxLevels(w: Writer, buf: seq<byte>, minLength: int)
    ensures Compress(BrCompressor(0, minLength), w, buf) == Compress(BrCompressor(-3, minLength), w, buf)
    ensures Compress(BrCompressor(0, minLength), w, buf) == Compress(BrCompressor(6, minLength), w, buf)
    ensures Compress(BrCompressor(11, minLength), w, buf) == Compress(BrCompressor(100, minLength), w, buf)
  {
  }

  /** If the brotli encoder round-trips at every valid quality, compression round-trips at every
      configured level, zero and out-of-range levels included, since the level is clamped. */
  lemma RoundTripAtAnyLevel(b: BrCompressor, w: Writer, decode: seq<byte> -> seq<byte>, buf: seq<byte>)
    requires forall q :: 1 <= q <= MaxBrQuality ==> decode(w.flushed(q, buf)) == buf
    ensures Compress(b, w, buf).Success? ==> decode(Compress(b, w, buf).value) == buf
  {
  }
}
