/** The compression middleware: configuration defaults, the short-circuit gates and the
    first-success walk over the ordered compressor list. */
module Compress {
  import opened Wrappers
  import opened Strings
  import opened HttpContext

  /** Bodies shorter than this many bytes are not compressed unless configured otherwise. */
  const DefaultCompressMinLength: int := 1024

  /** The default content-type checker: the unanchored pattern `text|javascript|json`, which
      matches exactly when one of the three alternatives occurs somewhere in the content type. */
  predicate DefaultChecker(contentType: string)
  {
    Contains(contentType, "text") || Contains(contentType, "javascript") || Contains(contentType, "json")
  }

  /** A codec behind the middleware's compressor interface: `accept` answers whether the request
      admits this codec and with which encoding token; `compress` runs it at a level. */
  datatype Compressor = Compressor(
    accept: Context -> (bool, string),
    compress: (seq<byte>, int) -> Result<seq<byte>, Error>)

  /** The user's configuration; `None` stands for a field left nil. */
  datatype Config = Config(
    level: int,
    minLength: int,
    checker: Option<string -> bool>,
    compressorList: Option<seq<Compressor>>,
    skipper: Option<Context -> bool>)

  /** What the middleware takes from outside this model: the framework's default skipper and
      the built-in brotli and gzip compressors. */
  datatype Defaults = Defaults(skipper: Context -> bool, brotli: Compressor, gzip: Compressor)

  /** The configuration after defaults are applied, as captured by the returned handler. */
  datatype Handler = Handler(
    level: int,
    minLength: int,
    checker: string -> bool,
    compressors: seq<Compressor>,
    skipper: Context -> bool)

  /** Whether the request's Accept-Encoding header admits `encoding`, by substring test. */
  function AcceptEncoding(c: Context, encoding: string): (r: (bool, string))
    ensures r.0 <==> exists i :: OccursAt(Get(c.requestHeader, AcceptEncodingKey), encoding, i)
    ensures r.1 == (if r.0 then encoding else "")
  {
    if Contains(Get(c.requestHeader, AcceptEncodingKey), encoding) then (true, encoding) else (false, "")
  }

  /** The minimum body length: zero means the default, anything else is used as given. */
  function ResolveMinLength(minLength: int): (m: int)
    ensures m != 0
    ensures minLength != 0 ==> m == minLength
    ensures minLength == 0 ==> m == DefaultCompressMinLength
  {
    if minLength == 0 then DefaultCompressMinLength else minLength
  }

  /** The user's compressors, a nil list reading as empty. */
  function UserList(cfg: Config): seq<Compressor>
  {
    match cfg.compressorList
    case None => []
    case Some(ks) => ks
  }

  /** Builds the handler: defaults for the minimum length, skipper and checker, and the built-in
      brotli and gzip compressors appended after the user's list. */
  function New(cfg: Config, d: Defaults): (h: Handler)
    ensures h.level == cfg.level
    ensures cfg.minLength == 0 ==> h.minLength == DefaultCompressMinLength
    ensures cfg.minLength != 0 ==> h.minLength == cfg.minLength
    ensures h.compressors == UserList(cfg) + [d.brotli, d.gzip]
    ensures cfg.skipper.None? ==> h.skipper == d.skipper
    ensures cfg.skipper.Some? ==> h.skipper == cfg.skipper.value
    ensures cfg.checker.None? ==> h.checker == DefaultChecker
    ensures cfg.checker.Some? ==> h.checker == cfg.checker.value
  {
    var skipper := match cfg.skipper case None => d.skipper case Some(f) => f;
    var checker := match cfg.checker case None => DefaultChecker case Some(f) => f;
    Handler(cfg.level, ResolveMinLength(cfg.minLength), checker,
            UserList(cfg) + [d.brotli] + [d.gzip], skipper)
  }

  /** The handler built from an empty configuration. */
  function NewDefault(d: Defaults): (h: Handler)
    ensures h.minLength == DefaultCompressMinLength
    ensures h.level == 0
    ensures h.compressors == [d.brotli, d.gzip]
    ensures h.checker == DefaultChecker
    ensures h.skipper == d.skipper
  {
    New(Config(0, 0, None, None, None), d)
  }

  /** Compressor `k` accepts the request and compresses `buf` at `level` without error. */
  predicate Succeeds(k: Compressor, c: Context, buf: seq<byte>, level: int)
  {
    k.accept(c).0 && k.compress(buf, level).Success?
  }

  /** Compressor `i` succeeds and every compressor before it does not. */
  predicate IsWinner(ks: seq<Compressor>, c: Context, buf: seq<byte>, level: int, i: int)
  {
    && 0 <= i < |ks|
    && Succeeds(ks[i], c, buf, level)
    && forall j :: 0 <= j < i ==> !Succeeds(ks[j], c, buf, level)
  }

  /** The compressor chosen, the encoding token it announced and the bytes it produced. */
  datatype Choice = Choice(index: nat, encoding: string, output: seq<byte>)

  /** The choice made by a successful compressor `i`. */
  function ChoiceAt(ks: seq<Compressor>, c: Context, buf: seq<byte>, level: int, i: int): Choice
    requires 0 <= i < |ks| && Succeeds(ks[i], c, buf, level)
  {
    Choice(i, ks[i].accept(c).1, ks[i].compress(buf, level).value)
  }

  /** Walks the compressors in order and takes the first that accepts and compresses without error;
      a compressor that fails is passed over. */
  function FirstSuccess(ks: seq<Compressor>, c: Context, buf: seq<byte>, level: int): (r: Option<Choice>)
    ensures r.Some? ==> IsWinner(ks, c, buf, level, r.value.index)
                        && r.value == ChoiceAt(ks, c, buf, level, r.value.index)
    ensures r.None? ==> forall i :: 0 <= i < |ks| ==> !Succeeds(ks[i], c, buf, level)
    decreases |ks|
  {
    if |ks| == 0 then None
    else if Succeeds(ks[0], c, buf, level) then Some(ChoiceAt(ks, c, buf, level, 0))
    else
      match FirstSuccess(ks[1..], c, buf, level)
      case None => None
      case Some(ch) => Some(ch.(index := ch.index + 1))
  }

  /** The loop of the handler: tries each compressor in turn and stops at the first success.
      `found` is false, and the body and encoding are left as they were, when none succeeds. */
  method Negotiate(ks: seq<Compressor>, c: Context, buf: seq<byte>, level: int)
    returns (found: bool, encoding: string, output: seq<byte>)
    ensures found <==> exists i :: IsWinner(ks, c, buf, level, i)
    ensures forall i :: IsWinner(ks, c, buf, level, i) ==>
              encoding == ks[i].accept(c).1 && output == ks[i].compress(buf, level).value
    ensures !found ==> output == buf && encoding == ""
    ensures found <==> FirstSuccess(ks, c, buf, level).Some?
    ensures found ==> FirstSuccess(ks, c, buf, level).value.encoding == encoding
                      && FirstSuccess(ks, c, buf, level).value.output == output
  {
    found, encoding, output := false, "", buf;
    var n := 0;
    while n < |ks|
      invariant 0 <= n <= |ks|
      invariant forall j :: 0 <= j < n ==> !Succeeds(ks[j], c, buf, level)
    {
      var (acceptable, enc) := ks[n].accept(c);
      if acceptable {
        var res := ks[n].compress(buf, level);
        if res.Success? {
          found, encoding, output := true, enc, res.value;
          assert IsWinner(ks, c, buf, level, n);
          WinnerIsFound(ks, c, buf, level, n);
          return;
        }
      }
      n := n + 1;
    }
  }

  /** The response passes every gate: a body is present, no Content-Encoding is set yet, the body
      is at least the minimum length and the content type satisfies the checker. */
  predicate Eligible(h: Handler, resp: Response)
  {
    && resp.body.Some?
    && Get(resp.header, ContentEncodingKey) == ""
    && |resp.body.value| >= h.minLength
    && h.checker(Get(resp.header, ContentTypeKey))
  }

  /** The response with its Content-Encoding set to `encoding` and its body replaced by `output`. */
  function Encoded(resp: Response, encoding: string, output: seq<byte>): Response
  {
    Response(resp.header[ContentEncodingKey := encoding], Some(output))
  }

  /** What the handler does to the context once the downstream handler returned without error:
      nothing unless every gate passes, and then the first successful compressor's output and
      token, or nothing again when no compressor succeeds. */
  function Apply(h: Handler, c: Context): (r: Context)
    ensures r.requestHeader == c.requestHeader
    ensures !Eligible(h, c.response) ==> r == c
    ensures Eligible(h, c.response)
            && (forall i :: 0 <= i < |h.compressors| ==>
                  !Succeeds(h.compressors[i], c, c.response.body.value, h.level))
            ==> r == c
    ensures forall i :: Eligible(h, c.response) && IsWinner(h.compressors, c, c.response.body.value, h.level, i)
              ==> r.response == Encoded(c.response, h.compressors[i].accept(c).1,
                                        h.compressors[i].compress(c.response.body.value, h.level).value)
  {
    match c.response.body
    case None => c
    case Some(buf) =>
      if Get(c.response.header, ContentEncodingKey) != "" then c
      else if |buf| < h.minLength || !h.checker(Get(c.response.header, ContentTypeKey)) then c
      else
        match FirstSuccess(h.compressors, c, buf, h.level)
        case None => c
        case Some(ch) =>
          WinnerIsFound(h.compressors, c, buf, h.level, ch.index);
          c.(response := Encoded(c.response, ch.encoding, ch.output))
  }

  /** The handler: `next` is what the downstream handler produced. When the skipper matches, or
      the downstream handler returned an error, its outcome is returned untouched. */
  function Handle(h: Handler, c: Context, next: Outcome): (r: Outcome)
    ensures h.skipper(c) ==> r == next
    ensures next.err.Some? ==> r == next
    ensures r.err == next.err
    ensures r.ctx.requestHeader == next.ctx.requestHeader
    ensures !h.skipper(c) && next.err.None? ==> r.ctx == Apply(h, next.ctx)
  {
    if h.skipper(c) then next
    else if next.err.Some? then next
    else Outcome(Apply(h, next.ctx), None)
  }

  /** A winner is unique, and the first-success walk finds exactly it. */
  lemma WinnerIsFound(ks: seq<Compressor>, c: Context, buf: seq<byte>, level: int, i: int)
    requires IsWinner(ks, c, buf, level, i)
    ensures FirstSuccess(ks, c, buf, level) == Some(ChoiceAt(ks, c, buf, level, i))
  {
  }

  /** Renumbers a choice made in a list that follows `offset` other compressors. */
  function Shift(r: Option<Choice>, offset: nat): Option<Choice>
  {
    match r
    case None => None
    case Some(ch) => Some(ch.(index := ch.index + offset))
  }

  /** On a concatenation, a success in the first part wins; only when the first part has none is
      the second part consulted. */
  lemma {:induction false} FirstSuccessAppend(a: seq<Compressor>, b: seq<Compressor>, c: Context, buf: seq<byte>, level: int)
    ensures FirstSuccess(a + b, c, buf, level) ==
            (if FirstSuccess(a, c, buf, level).Some? then FirstSuccess(a, c, buf, level)
             else Shift(FirstSuccess(b, c, buf, level), |a|))
    decreases |a|
  {
    if |a| == 0 {
      assert a + b == b;
    } else {
      assert (a + b)[0] == a[0];
      assert (a + b)[1..] == a[1..] + b;
      FirstSuccessAppend(a[1..], b, c, buf, level);
    }
  }

  /** Once a winner is found, nothing after it affects the result: the compressors past it are
      never consulted. */
  lemma LaterCompressorsNotConsulted(ks: seq<Compressor>, tail: seq<Compressor>, c: Context, buf: seq<byte>, level: int, i: int)
    requires IsWinner(ks, c, buf, level, i)
    ensures FirstSuccess(ks[..i + 1] + tail, c, buf, level) == FirstSuccess(ks, c, buf, level)
  {
    var pre := ks[..i + 1];
    assert IsWinner(pre, c, buf, level, i);
    WinnerIsFound(pre, c, buf, level, i);
    WinnerIsFound(ks, c, buf, level, i);
    FirstSuccessAppend(pre, tail, c, buf, level);
  }

  /** The user's compressors are tried before the built-in ones: if one of them succeeds, the
      handler's choice is the choice made within the user's list alone. */
  lemma UserCompressorsTriedFirst(cfg: Config, d: Defaults, c: Context, buf: seq<byte>, level: int, i: int)
    requires 0 <= i < |UserList(cfg)| && Succeeds(UserList(cfg)[i], c, buf, level)
    ensures FirstSuccess(New(cfg, d).compressors, c, buf, level) == FirstSuccess(UserList(cfg), c, buf, level)
    ensures FirstSuccess(New(cfg, d).compressors, c, buf, level).value.index < |UserList(cfg)|
  {
    FirstSuccessAppend(UserList(cfg), [d.brotli, d.gzip], c, buf, level);
  }

  /** A nil list and an empty list configure the same compressors. */
  lemma NilListIsEmptyList(cfg: Config, d: Defaults)
    ensures New(cfg.(compressorList := None), d).compressors == New(cfg.(compressorList := Some([])), d).compressors
  {
  }

  /** A response that already carries a non-empty Content-Encoding passes through unchanged, so
      running the middleware again on a response it compressed with a non-empty token changes
      nothing. */
  lemma SecondRunIsNoOp(h: Handler, c: Context, next: Outcome, c2: Context)
    requires next.err.None?
    requires Get(Handle(h, c, next).ctx.response.header, ContentEncodingKey) != ""
    ensures var first := Handle(h, c, next);
            Handle(h, c2, Outcome(first.ctx, None)) == first
  {
  }

  /** A body shorter than the minimum length leaves the downstream outcome untouched. */
  lemma ShortBodyUnchanged(h: Handler, c: Context, next: Outcome)
    requires next.ctx.response.body.Some? && |next.ctx.response.body.value| < h.minLength
    ensures Handle(h, c, next) == next
  {
  }

  /** When no compressor accepts the request, the downstream outcome is untouched. */
  lemma NoAcceptingCompressorUnchanged(h: Handler, c: Context, next: Outcome)
    requires forall i :: 0 <= i < |h.compressors| ==> !h.compressors[i].accept(next.ctx).0
    ensures Handle(h, c, next) == next
  {
  }

  /** Of two successful compressors the later one never encodes the response, however the two
      outputs compare: the header and body come from a compressor no later than the earlier one. */
  lemma EarlierCompressorWins(h: Handler, c: Context, i: int, j: int)
    requires Eligible(h, c.response)
    requires 0 <= i < j < |h.compressors|
    requires Succeeds(h.compressors[i], c, c.response.body.value, h.level)
    requires Succeeds(h.compressors[j], c, c.response.body.value, h.level)
    ensures FirstSuccess(h.compressors, c, c.response.body.value, h.level).Some?
    ensures var k := FirstSuccess(h.compressors, c, c.response.body.value, h.level).value.index;
            && k <= i
            && Apply(h, c).response
               == Encoded(c.response, h.compressors[k].accept(c).1,
                          h.compressors[k].compress(c.response.body.value, h.level).value)
  {
  }

  /** A request whose Accept-Encoding lists the token admits it. */
  lemma AcceptEncodingListedToken(c: Context, pre: string, encoding: string, post: string)
    requires Get(c.requestHeader, AcceptEncodingKey) == pre + encoding + post
    ensures AcceptEncoding(c, encoding) == (true, encoding)
  {
    ContainsInfix(pre, encoding, post);
  }

  /** The test is by substring, not by token: an encoding the client marks unacceptable with
      `q=0` is still admitted. */
  lemma QualityZeroStillAdmitted(c: Context)
    requires Get(c.requestHeader, AcceptEncodingKey) == "gzip;q=0"
    ensures AcceptEncoding(c, "gzip") == (true, "gzip")
  {
  }

  /** The default checker admits every content type that mentions text, javascript or json
      anywhere, such as `application/json; charset=utf-8`. */
  lemma DefaultCheckerAdmits(pre: string, alternative: string, post: string)
    requires alternative in {"text", "javascript", "json"}
    ensures DefaultChecker(pre + alternative + post)
  {
    ContainsInfix(pre, alternative, post);
  }

  /** The default checker rejects PNG images. */
  lemma DefaultCheckerRejectsPng()
    ensures !DefaultChecker("image/png")
  {
    MissingCharNotContained("image/png", "text", 2);
    MissingCharNotContained("image/png", "javascript", 0);
    MissingCharNotContained("image/png", "json", 0);
  }

  /** With the default configuration a PNG response is never compressed, whatever its size. */
  lemma DefaultSkipsImages(d: Defaults, c: Context, next: Outcome)
    requires Get(next.ctx.response.header, ContentTypeKey) == "image/png"
    ensures Handle(NewDefault(d), c, next) == next
  {
    DefaultCheckerRejectsPng();
  }

  /** A compressor that declines or fails is passed over: the walk continues with the rest. */
  lemma FailedCompressorIsSkipped(k: Compressor, rest: seq<Compressor>, c: Context, buf: seq<byte>, level: int)
    requires !Succeeds(k, c, buf, level)
    ensures FirstSuccess([k] + rest, c, buf, level) == Shift(FirstSuccess(rest, c, buf, level), 1)
  {
  }

  /** The response is either left exactly as it was, or it passed every gate and both its
      Content-Encoding and its body were written from the one winning compressor. */
  lemma ChangedOnlyByWinner(h: Handler, c: Context)
    ensures var r := Apply(h, c);
            || r == c
            || (&& Eligible(h, c.response)
                && exists i :: IsWinner(h.compressors, c, c.response.body.value, h.level, i)
                               && r.response == Encoded(c.response, h.compressors[i].accept(c).1,
                                                        h.compressors[i].compress(c.response.body.value, h.level).value))
  {
  }
}
