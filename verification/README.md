# cod-compress: compression negotiation, modelled in Dafny

This project models the compression middleware of `cod-compress`, a Go HTTP middleware. After the downstream handler has filled the response buffer, the middleware decides whether to compress the body and which codec to use. It then rewrites the body and the `Content-Encoding` header. Each codec (brotli, gzip, s2, lz4) is an opaque function. The model keeps the policy around them: configuration defaults, the short-circuit gates, the first-success walk over the ordered compressor list, and the parameter handling of the brotli and s2 adapters.

Modules, one per file:

- `Wrappers` (`wrappers.dfy`): `Option` for Go's nil values and `Result` for `(value, error)` returns.
- `Strings` (`strings.dfy`): `Contains`, the substring test that Go's `strings.Contains` answers. It is written as a recursive scan and proved equal to the existential definition "some position starts an occurrence". Header values are sequences of characters.
- `HttpContext` (`httpcontext.dfy`): the framework context as plain values. It holds request headers, response headers and the optional body. A missing header reads as `""`. An `Outcome` pairs the context a handler leaves with the error it returned.
- `Compress` (`compress.go`, in `compress.dfy`): the middleware.
  - `New` applies the defaults.
  - `Handle` is the returned handler.
  - `Apply` is its gate-and-iterate part.
  - `FirstSuccess` is the walk, written as a recursive function.
  - `Negotiate` is the same walk as the source's loop. It is proved to agree with `FirstSuccess`.
  - A compressor is a record of two closures, `accept(c)` and `compress(buf, level)`. These are the signatures of the compressor interface at compress.go:36-38.
- `Brotli` (`brotli.dfy`): the brotli adapter. It keeps the signatures of brotli.go, which differ from compress.go's: `Accept(c, bodySize)` and `Compress(buf)`.
- `S2` (`s2.dfy`): the s2 adapter, with the signatures of s2.go: `Accept(c)`, `Compress(buf, level)` and `Pipe(c, level)`. s2.go takes an elton context (s2.go:34), while compress.go's interface takes a cod context (compress.go:36), so as written s2 does not fit the middleware's interface. `S2.AsCompressor` and `S2.S2FirstAlwaysWins` are a composition that exists only in the model, over the one shared context.

The middleware is a pure function. `Handle(h, c, next)` takes the handler's resolved configuration, the context before the downstream call, and `next`, the downstream result (the context it left and its error). It returns the outcome the middleware produces. The source replaces the buffer in place; the model returns a new response value instead.

Two details of the code that the model keeps:

- brotli and gzip are appended to the compressor list unconditionally (compress.go:88-92); there is no start-up check of either library.
- Only a nil body buffer is skipped (compress.go:104). An empty, non-nil body goes on to the length gate (compress.go:115), which rejects it unless MinLength is negative, since a MinLength of 0 resolves to 1024.

## Model

| member | source | states |
|---|---|---|
| Strings.Contains | compress.go:58 | the substring test is true exactly when some position of the header starts an occurrence of the token; the empty token occurs everywhere |
| Compress.AcceptEncoding | compress.go:56-62 | returns `(true, encoding)` exactly when the Accept-Encoding value contains `encoding` as a substring, and `(false, "")` otherwise |
| Compress.AcceptEncodingListedToken | compress.go:56-62 | a header that lists the token anywhere, with any text around it, admits it |
| Compress.QualityZeroStillAdmitted | compress.go:58 | the test is by substring, not by parsed token: `gzip;q=0` still admits gzip |
| Compress.DefaultCheckerAdmits | compress.go:25 | the default pattern, an unanchored match of text, javascript or json, admits every content type that contains one of the three anywhere, such as `application/json; charset=utf-8` |
| Compress.DefaultCheckerRejectsPng | compress.go:25 | the default pattern does not match `image/png` |
| Compress.ResolveMinLength | compress.go:71-74 | a MinLength of 0 resolves to 1024; any other value, negative ones included, is kept as given; the result is never 0 |
| Compress.New | compress.go:70-92 | the level is kept; a MinLength of 0 becomes 1024 and any other value is kept; the compressor list is exactly the user's list, then brotli, then gzip; a nil skipper or checker takes the default, and a non-nil one is kept |
| Compress.NewDefault | compress.go:65-67 | the empty configuration gives minimum length 1024, level 0, the default checker and skipper, and exactly `[brotli, gzip]` |
| Compress.NilListIsEmptyList | compress.go:83-86 | a nil compressor list and an empty one configure the same compressors |
| Compress.UserCompressorsTriedFirst | compress.go:83-92 | when any user compressor succeeds, the choice is made within the user's list and is never a built-in compressor |
| Compress.FirstSuccess | compress.go:119-133 | the result, when present, is the unique compressor that accepts and compresses without error with every earlier one failing, together with its token and exact output; absent means no compressor succeeds |
| Compress.Negotiate | compress.go:119-133 | the loop finds a compressor iff some compressor succeeds, and then returns the first one's token and output; otherwise the body and encoding are untouched; it agrees with `FirstSuccess` |
| Compress.WinnerIsFound | compress.go:119-131 | conversely, whenever a compressor is the first success, the walk returns exactly it |
| Compress.FirstSuccessAppend | compress.go:119-131 | on a list `a + b`, a success in `a` wins, and `b` is consulted only when nothing in `a` succeeds |
| Compress.LaterCompressorsNotConsulted | compress.go:127-131 | once a winner is found, replacing everything after it changes nothing |
| Compress.FailedCompressorIsSkipped | compress.go:120-132 | a compressor that declines or whose compression fails is passed over silently and the walk continues with the rest |
| Compress.EarlierCompressorWins | compress.go:119-131 | of two successful compressors on an eligible response, the header and body are written from a compressor no later than the earlier one, however the outputs compare |
| Compress.Apply | compress.go:102-133 | no body, a non-empty Content-Encoding, a short body or a rejected content type leaves the context unchanged; so does the case where no compressor succeeds; otherwise Content-Encoding becomes the winner's token and the body becomes exactly its output |
| Compress.ChangedOnlyByWinner | compress.go:102-133 | the response is either exactly the input, or it passed every gate and both header and body were written from the one winning compressor |
| Compress.Handle | compress.go:93-100 | when the skipper matches or the downstream handler errs, the downstream outcome is returned untouched; the error is always the downstream error |
| Compress.ShortBodyUnchanged | compress.go:115-117 | a body shorter than the minimum length leaves the downstream outcome untouched |
| Compress.DefaultSkipsImages | compress.go:112-117 | with the default configuration an `image/png` response is never compressed, whatever its size |
| Compress.NoAcceptingCompressorUnchanged | compress.go:119-123 | when no compressor accepts the request, the outcome is untouched |
| Compress.SecondRunIsNoOp | compress.go:108-111 | once a response carries a non-empty Content-Encoding, running the middleware on it again returns it unchanged |
| Brotli.GetLevel | brotli.go:49-58 | levels at or below 0 become 6, levels above 11 become 11, levels 1..11 are kept; the result always lies in [1, 11] |
| Brotli.GetLevelIdempotent | brotli.go:49-58 | clamping an already clamped level keeps it |
| Brotli.DefaultAndOverMaxLevels | brotli.go:49-58 | levels 0, -3 and 6 compress identically, and so do 11 and 100 |
| Brotli.GetMinLength | brotli.go:60-65 | a MinLength of 0 takes the framework default; any other value, negative ones included, is used verbatim |
| Brotli.Accept | brotli.go:68-74 | a known size below the minimum length gives `(false, "")`; otherwise the answer is whether the header contains `br`, with token `br` |
| Brotli.ShortBodyIgnoresHeader | brotli.go:70-72 | for a known short size the request is not consulted: any two requests get the same answer |
| Brotli.AcceptDependsOnlyOnHeader | brotli.go:70-73 | for an unknown or large enough size, only the Accept-Encoding value matters |
| Brotli.NegativeMinLengthNeverRefusesBySize | brotli.go:60-72 | a negative minimum length disables the size check for every size |
| Brotli.Compress | brotli.go:77-86 | a failing write yields exactly that error and no buffer; otherwise the result is the buffer the writer filled at the clamped quality |
| Brotli.CompressDependsOnlyOnQuality | brotli.go:77-79 | two compressors with the same clamped quality produce the same result |
| Brotli.RoundTripAtAnyLevel | brotli.go:77-85 | if the encoder round-trips at every valid quality, a successful compression round-trips at every configured level, 0 and out-of-range ones included |
| S2.StrategyFor | s2.go:38-43 | better compression iff the level is 0 or above 3; negative levels and 1..3 select the fast encoder |
| S2.Accept | s2.go:34-36 | admits s2 exactly when the Accept-Encoding value contains `s2`, with token `s2` |
| S2.Compress | s2.go:46-54 | never fails; the output is the better encoder's for the better strategy, the fast encoder's otherwise |
| S2.Pipe | s2.go:63-68 | the streaming writer gets the better-compression option iff the level is 0 or above 3 |
| S2.PipeAgreesWithCompress | s2.go:46-68 | streaming and block compression select the same strategy for every level |
| S2.CompressDependsOnlyOnStrategy | s2.go:47-52 | two levels that select the same strategy produce the same output |
| S2.LevelExamples | s2.go:38-52 | levels 0, 4 and 100 give identical output, as do -1, 1 and 3 |
| S2.S2FirstAlwaysWins | s2.go:46-54 | a composition that exists only in the model: with s2 first in the list and a request that admits it, an eligible response is always s2-encoded, since s2 never fails |

## Left out

- The compression algorithms (brotli, gzip, s2, lz4): they are foreign libraries. They appear as opaque closures: `Brotli.Writer`, `S2.Library`, and the `Defaults.brotli` / `Defaults.gzip` compressors. No round trip is assumed; `Brotli.RoundTripAtAnyLevel` takes the encoder's round trip as a hypothesis.
- `brCompressor` and `gzipCompressor` (compress.go:89, compress.go:92) and `Lz4Compressor`: their sources are not part of this model. The built-in two are abstract compressors passed in through `Compress.Defaults`.
- The default skipper of the framework: it is external and is a parameter (`Defaults.skipper`).
- Regular-expression matching for a user-supplied `Checker`: it is library code, so a user checker is an abstract predicate on the content type. The default pattern `text|javascript|json` is modelled exactly, as containment of one of its three alternatives.
- The framework's `DefaultCompressMinLength`, used by brotli.go:62: its value is not part of this model. It is the parameter `defaultMinLength`.
- The framework's own `AcceptEncoding`, used by brotli.go:73: it is modelled as the same substring check as compress.go's `AcceptEncoding`.
- The streaming bodies of `Pipe` (brotli.go:89-100, s2.go:57-72): the copy loop, the deferred `Close` calls and their I/O errors are I/O plumbing. Only the writer-option choice of s2's `Pipe` is modelled. Brotli's `Pipe` has no member of its own; it opens its writer at the same `GetLevel` quality as `Brotli.Compress`.
- Brotli.Compress: the error returned by the deferred `Close` is discarded in the source. The model likewise returns whatever the writer holds after closing, and does not model a failing `Close`.
- The request contexts of the two frameworks, cod (compress.go) and elton (brotli.go, s2.go), are modelled as one context, `HttpContext.Context`. Only their header lookups and the response are used.
- Strings are sequences of characters, while Go's `strings.Contains` compares bytes. The two agree when each character stands for one byte of the header value, as for the ASCII tokens and headers involved here. The byte-level search algorithm Go uses is not modelled; only its result is.
- Header names are assumed to be in canonical form. Case-insensitive header lookup belongs to the framework.
- Compress.SecondRunIsNoOp: it requires the first run to have left a non-empty Content-Encoding. A compressor that accepts with an empty token (for example one built on `AcceptEncoding` with token `""`, which every header admits) sets an empty Content-Encoding, and a second run may then compress again.
- Concurrency and sharing of one handler across requests: not relevant to a sequential model.
- lz4_test.go and brotli_test.go: they test an adapter whose source is absent and an older brotli signature, respectively.
